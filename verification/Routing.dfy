/** Which plugin endpoint a canonical path goes to: the longest complete prefix, proved to be a walk over segments. */
module Routing {
  import opened Text
  import opened Paths

  const HTTP: string := "http+unix"

  datatype Endpoint = Endpoint(name: string, protocol: string, address: string, routes: seq<Path>)

  datatype Match = Match(length: nat, endpoint: Endpoint)

  predicate Serves(route: Path, path: Path) {
    route == [SLASH] || path == route || StartsWith(path, route + [SLASH])
  }

  function RouteMatches(endpoint: Endpoint, routes: seq<Path>, path: Path): seq<Match>
    decreases |routes|
  {
    if routes == [] then []
    else if Serves(routes[0], path) then [Match(|routes[0]|, endpoint)] + RouteMatches(endpoint, routes[1..], path)
    else RouteMatches(endpoint, routes[1..], path)
  }

  function Matches(endpoints: seq<Endpoint>, path: Path): seq<Match> {
    if endpoints == [] then []
    else (if endpoints[0].protocol == HTTP then RouteMatches(endpoints[0], endpoints[0].routes, path) else [])
         + Matches(endpoints[1..], path)
  }

  /** `max` with a key: of several longest matches the first. */
  function Longest(matches: seq<Match>): (r: Match)
    requires matches != []
  {
    if |matches| == 1 then matches[0]
    else if Longest(matches[1..]).length > matches[0].length then Longest(matches[1..]) else matches[0]
  }

  function MatchingEndpoint(endpoints: seq<Endpoint>, path: Path): Option<Endpoint> {
    var matches := Matches(endpoints, path);
    if matches == [] then None else Some(Longest(matches).endpoint)
  }

  // ----- The walk -----

  function PathSegments(path: Path): seq<Path> {
    Split(path)[1..]
  }

  function RouteSegments(route: Path): seq<Path> {
    if route == [SLASH] then [] else Split(route)[1..]
  }

  predicate Owns(endpoint: Endpoint, segments: seq<Path>) {
    && endpoint.protocol == "http+unix"
    && exists r :: 0 <= r < |endpoint.routes| && RouteSegments(endpoint.routes[r]) == segments
  }

  /** The first endpoint published for exactly these segments. */
  function Owner(endpoints: seq<Endpoint>, segments: seq<Path>): Option<Endpoint> {
    if endpoints == [] then None
    else if Owns(endpoints[0], segments) then Some(endpoints[0])
    else Owner(endpoints[1..], segments)
  }

  /** Up from the first `depth` segments until somebody owns them. */
  function Walk(endpoints: seq<Endpoint>, segments: seq<Path>, depth: nat): Option<Endpoint>
    requires depth <= |segments|
  {
    if Owner(endpoints, segments[..depth]).Some? then Owner(endpoints, segments[..depth])
    else if depth == 0 then None
    else Walk(endpoints, segments, depth - 1)
  }

  // ----- A served path has the route's segments first -----

  predicate SlashLed(p: Path) {
    p != [] && p[0] == SLASH
  }

  predicate Published(endpoints: seq<Endpoint>) {
    forall e, r :: 0 <= e < |endpoints| && 0 <= r < |endpoints[e].routes| ==> SlashLed(endpoints[e].routes[r])
  }

  predicate Extends(p: Path, a: Path) {
    p == a || StartsWith(p, a + [SLASH])
  }

  lemma ExtendsPlain(a: Path, p: Path)
    requires SLASH !in a
    ensures Extends(p, a) <==> p[..SlashAt(p)] == a
  {
    var i := SlashAt(p);
    if Extends(p, a) {
      assert forall j :: 0 <= j < |a| ==> p[j] == a[j];
      if |a| < |p| { assert p[|a|] == (a + [SLASH])[|a|]; }
      SlashAtIs(p, |a|);
    }
    if p[..i] == a && i < |p| {
      assert p[..i + 1] == a + [SLASH];
    }
  }

  lemma ExtendsJoined(a: Path, more: Path, rest: Path)
    ensures Extends(Joined(a, rest), Joined(a, more)) <==> Extends(rest, more)
  {
    var whole, part := Joined(a, rest), Joined(a, more);
    assert whole[|a| + 1..] == rest && part[|a| + 1..] == more;
    assert (part + [SLASH])[|a| + 1..] == more + [SLASH];
    if StartsWith(rest, more + [SLASH]) {
      assert part + [SLASH] == Joined(a, more + [SLASH]);
      assert whole == part + [SLASH] + rest[|more| + 1..];
    }
    if StartsWith(whole, part + [SLASH]) {
      assert rest == more + [SLASH] + whole[|part| + 1..];
    }
  }

  lemma ExtendsFirst(a: Path, p: Path)
    requires SlashAt(a) < |a| && Extends(p, a)
    ensures SlashAt(p) == SlashAt(a) < |p| && p[..SlashAt(p)] == a[..SlashAt(a)]
  {
    assert forall j :: 0 <= j < |a| ==> p[j] == (a + [SLASH])[j] == a[j];
    SlashAtIs(p, SlashAt(a));
  }

  /** One path extends another slash by slash exactly when its segments begin with the other's. */
  lemma {:induction false} ExtendsIsSegmentPrefix(a: Path, p: Path)
    ensures Extends(p, a) <==> Split(a) <= Split(p)
    decreases |a|
  {
    hide Extends, Split, SlashAt, Joined;
    var i, j := SlashAt(a), SlashAt(p);
    FirstOfSplit(p);
    FirstOfSplit(a);
    if i == |a| {
      ExtendsPlain(a, p);
      assert a[..i] == a;
      return;
    }
    Cut(a);
    SplitJoin(a[..i], a[i + 1..]);
    if j < |p| && p[..j] == a[..i] {
      Cut(p);
      SplitJoin(p[..j], p[j + 1..]);
      ExtendsJoined(a[..i], a[i + 1..], p[j + 1..]);
      ExtendsIsSegmentPrefix(a[i + 1..], p[j + 1..]);
      PrefixCons(a[..i], Split(a[i + 1..]), Split(p[j + 1..]));
    } else if Extends(p, a) {
      ExtendsFirst(a, p);
    }
  }

  lemma FirstOfSplit(p: Path)
    ensures Split(p)[0] == p[..SlashAt(p)] && (SlashAt(p) == |p| ==> Split(p) == [p])
  {}

  lemma PrefixCons(a: Path, s: seq<Path>, t: seq<Path>)
    ensures [a] + s <= [a] + t <==> s <= t
  {
    if [a] + s <= [a] + t {
      assert forall k :: 0 <= k < |s| ==> s[k] == ([a] + s)[k + 1] == ([a] + t)[k + 1] == t[k];
    }
  }

  /** The textual test of a route is a test of whole segments. */
  lemma ServesIsSegmentPrefix(route: Path, path: Path)
    requires SlashLed(route) && SlashLed(path)
    ensures Serves(route, path) <==> RouteSegments(route) <= PathSegments(path)
  {
    hide Split, Extends;
    if route != [SLASH] {
      assert Serves(route, path) <==> Extends(path, route) by { ServesExtends(route, path); }
      ExtendsIsSegmentPrefix(route, path);
      SplitSlashLed(route);
      SplitSlashLed(path);
      PrefixCons([], RouteSegments(route), PathSegments(path));
    }
  }

  lemma ServesExtends(route: Path, path: Path)
    requires route != [SLASH]
    ensures Serves(route, path) <==> Extends(path, route)
  {}

  /** Fewer segments mean a shorter route. */
  lemma SegmentsBoundLength(short: Path, long: Path)
    requires SlashLed(short) && SlashLed(long) && RouteSegments(short) <= RouteSegments(long)
    ensures |short| <= |long| && (|short| == |long| ==> short == long)
  {
    hide Split, Extends;
    if short != [SLASH] {
      if long == [SLASH] {
        SplitSlashLed(short);
        assert false;
      }
      SplitSlashLed(short);
      SplitSlashLed(long);
      PrefixCons([], RouteSegments(short), RouteSegments(long));
      ExtendsIsSegmentPrefix(short, long);
      ExtendsLength(short, long);
    } else if |long| == 1 {
      assert long == [SLASH];
    }
  }

  lemma ExtendsLength(short: Path, long: Path)
    requires Extends(long, short)
    ensures |short| < |long| || short == long
  {}

  /** Two routes that serve one path are as long as each other only if they are the same. */
  lemma TiesAreIdentical(first: Path, second: Path, path: Path)
    requires SlashLed(first) && SlashLed(second) && SlashLed(path) && Serves(first, path) && Serves(second, path)
    ensures |first| == |second| <==> first == second
    ensures |RouteSegments(first)| <= |RouteSegments(second)| <==> |first| <= |second|
  {
    hide Split, Serves;
    ServesIsSegmentPrefix(first, path);
    ServesIsSegmentPrefix(second, path);
    if |RouteSegments(first)| <= |RouteSegments(second)| {
      SegmentsBoundLength(first, second);
    } else {
      SegmentsBoundLength(second, first);
    }
  }

  // ----- The longest match -----

  predicate Hit(endpoint: Endpoint, route: Path, path: Path) {
    endpoint.protocol == "http+unix" && route in endpoint.routes && Serves(route, path)
  }

  lemma {:induction false} LongestOfTwo(a: seq<Match>, b: seq<Match>)
    requires a != [] && b != []
    ensures Longest(a + b) == if Longest(b).length > Longest(a).length then Longest(b) else Longest(a)
    decreases |a|
  {
    if |a| == 1 {
      assert (a + b)[1..] == b;
    } else {
      assert (a + b)[1..] == a[1..] + b;
      LongestOfTwo(a[1..], b);
    }
  }

  /** What one endpoint contributes. */
  lemma {:induction false} OfOneEndpoint(endpoint: Endpoint, routes: seq<Path>, path: Path)
    ensures var ms := RouteMatches(endpoint, routes, path);
            && (ms == [] <==> forall r :: r in routes ==> !Serves(r, path))
            && (ms != [] ==> && Longest(ms).endpoint == endpoint
                             && (exists r :: r in routes && Serves(r, path) && |r| == Longest(ms).length)
                             && (forall r :: r in routes && Serves(r, path) ==> |r| <= Longest(ms).length))
    decreases |routes|
  {
    hide Serves, Longest;
    if routes != [] {
      var rest := RouteMatches(endpoint, routes[1..], path);
      OfOneEndpoint(endpoint, routes[1..], path);
      assert routes == [routes[0]] + routes[1..];
      if Serves(routes[0], path) {
        var one := [Match(|routes[0]|, endpoint)];
        LongestOfOne(one[0]);
        if rest == [] { assert one + rest == one; } else { LongestOfTwo(one, rest); }
      } else {
        assert [] + rest == rest;
      }
    }
  }

  lemma LongestOfOne(m: Match)
    ensures Longest([m]) == m
  {}

  lemma {:induction false} NoMatches(endpoints: seq<Endpoint>, path: Path)
    ensures Matches(endpoints, path) == [] <==> forall e, r :: 0 <= e < |endpoints| ==> !Hit(endpoints[e], r, path)
  {
    hide Serves;
    if endpoints != [] {
      OfOneEndpoint(endpoints[0], endpoints[0].routes, path);
      NoMatches(endpoints[1..], path);
      assert forall e :: 0 < e < |endpoints| ==> endpoints[e] == endpoints[1..][e - 1];
      if Matches(endpoints[1..], path) != [] {
        var e, r :| 0 <= e < |endpoints[1..]| && Hit(endpoints[1..][e], r, path);
        assert Hit(endpoints[e + 1], r, path);
      } else if Matches(endpoints, path) != [] {
        var r :| r in endpoints[0].routes && Serves(r, path);
        assert Hit(endpoints[0], r, path);
      }
    }
  }

  /** The chosen match: nobody has a longer route, and nobody published earlier one as long. */
  lemma {:induction false} Chosen(endpoints: seq<Endpoint>, path: Path) returns (i: nat, route: Path)
    requires Matches(endpoints, path) != []
    ensures i < |endpoints| && Hit(endpoints[i], route, path)
    ensures Longest(Matches(endpoints, path)) == Match(|route|, endpoints[i])
    ensures forall e, r :: 0 <= e < |endpoints| && Hit(endpoints[e], r, path) ==>
              |r| <= |route| && (e < i ==> |r| < |route|)
  {
    hide Serves, Longest;
    var here := if endpoints[0].protocol == HTTP then RouteMatches(endpoints[0], endpoints[0].routes, path) else [];
    var later := Matches(endpoints[1..], path);
    OfOneEndpoint(endpoints[0], endpoints[0].routes, path);
    NoMatches(endpoints[1..], path);
    assert forall e :: 0 < e < |endpoints| ==> endpoints[e] == endpoints[1..][e - 1];
    if later != [] {
      i, route := Chosen(endpoints[1..], path);
      if here == [] {
        assert here + later == later;
        i := i + 1;
      } else {
        LongestOfTwo(here, later);
        if Longest(later).length > Longest(here).length {
          i := i + 1;
        } else {
          i := 0;
          route :| Hit(endpoints[0], route, path) && |route| == Longest(here).length;
        }
      }
    } else {
      assert here + later == here;
      i := 0;
      route :| Hit(endpoints[0], route, path) && |route| == Longest(here).length;
    }
  }

  // ----- Routing is the walk -----

  predicate IsFirstOwner(endpoints: seq<Endpoint>, segments: seq<Path>, i: int) {
    && 0 <= i < |endpoints| && Owns(endpoints[i], segments)
    && forall e :: 0 <= e < i ==> !Owns(endpoints[e], segments)
  }

  lemma {:induction false} OwnerIs(endpoints: seq<Endpoint>, segments: seq<Path>)
    ensures Owner(endpoints, segments).None? <==> forall e :: 0 <= e < |endpoints| ==> !Owns(endpoints[e], segments)
    ensures forall i :: IsFirstOwner(endpoints, segments, i) ==> Owner(endpoints, segments) == Some(endpoints[i])
  {
    hide Owns;
    if endpoints != [] {
      OwnerIs(endpoints[1..], segments);
      assert forall e :: 0 < e < |endpoints| ==> endpoints[e] == endpoints[1..][e - 1];
      forall i | IsFirstOwner(endpoints, segments, i) ensures Owner(endpoints, segments) == Some(endpoints[i]) {
        if i > 0 {
          assert forall e :: 0 <= e < i - 1 ==> endpoints[1..][e] == endpoints[e + 1];
          assert IsFirstOwner(endpoints[1..], segments, i - 1);
        }
      }
    }
  }

  lemma {:induction false} WalkFinds(endpoints: seq<Endpoint>, segments: seq<Path>, depth: nat, found: nat)
    requires found <= depth <= |segments| && Owner(endpoints, segments[..found]).Some?
    requires forall k :: found < k <= depth ==> Owner(endpoints, segments[..k]).None?
    ensures Walk(endpoints, segments, depth) == Owner(endpoints, segments[..found])
  {
    if depth > found { WalkFinds(endpoints, segments, depth - 1, found); }
  }

  lemma {:induction false} WalkFails(endpoints: seq<Endpoint>, segments: seq<Path>, depth: nat)
    requires depth <= |segments| && forall k :: 0 <= k <= depth ==> Owner(endpoints, segments[..k]).None?
    ensures Walk(endpoints, segments, depth).None?
  {
    if depth > 0 { WalkFails(endpoints, segments, depth - 1); }
  }

  /** Who owns the first `k` segments of a path has a route that serves it. */
  lemma OwnerHits(endpoint: Endpoint, path: Path, k: nat) returns (route: Path)
    requires SlashLed(path) && k <= |PathSegments(path)| && Owns(endpoint, PathSegments(path)[..k])
    requires forall r :: 0 <= r < |endpoint.routes| ==> SlashLed(endpoint.routes[r])
    ensures Hit(endpoint, route, path) && SlashLed(route) && RouteSegments(route) == PathSegments(path)[..k]
  {
    hide Serves, PathSegments, RouteSegments;
    var r :| 0 <= r < |endpoint.routes| && RouteSegments(endpoint.routes[r]) == PathSegments(path)[..k];
    route := endpoint.routes[r];
    ServesIsSegmentPrefix(route, path);
  }

  /** Comparing string lengths of routes picks the endpoint that owns the longest prefix of the path's segments; of
      several endpoints with that very route the first published, and nobody exactly when nobody owns a prefix. */
  lemma RoutingIsSegmentWalk(endpoints: seq<Endpoint>, path: Path)
    requires SlashLed(path) && Published(endpoints)
    ensures MatchingEndpoint(endpoints, path) == Walk(endpoints, PathSegments(path), |PathSegments(path)|)
  {
    hide Serves, PathSegments, RouteSegments, Owns, Owner, Matches, Longest, Walk;
    var segments := PathSegments(path);
    if Matches(endpoints, path) == [] {
      NoMatches(endpoints, path);
      forall k | 0 <= k <= |segments| ensures Owner(endpoints, segments[..k]).None? {
        NobodyOwns(endpoints, path, k);
      }
      WalkFails(endpoints, segments, |segments|);
    } else {
      var i, route := Chosen(endpoints, path);
      ServesIsSegmentPrefix(route, path);
      var found := |RouteSegments(route)|;
      ChosenOwns(endpoints, path, i, route);
      forall k | found < k <= |segments| ensures Owner(endpoints, segments[..k]).None? {
        NobodyDeeper(endpoints, path, i, route, k);
      }
      WalkFinds(endpoints, segments, |segments|, found);
    }
  }

  lemma NobodyOwns(endpoints: seq<Endpoint>, path: Path, k: nat)
    requires SlashLed(path) && Published(endpoints) && k <= |PathSegments(path)|
    requires forall e, r :: 0 <= e < |endpoints| ==> !Hit(endpoints[e], r, path)
    ensures Owner(endpoints, PathSegments(path)[..k]).None?
  {
    hide Serves, PathSegments, RouteSegments, Owns, Owner, Hit;
    OwnerIs(endpoints, PathSegments(path)[..k]);
    forall e | 0 <= e < |endpoints| ensures !Owns(endpoints[e], PathSegments(path)[..k]) {
      if Owns(endpoints[e], PathSegments(path)[..k]) {
        var r := OwnerHits(endpoints[e], path, k);
      }
    }
  }

  ghost predicate IsChosen(endpoints: seq<Endpoint>, path: Path, i: nat, route: Path) {
    && i < |endpoints| && Hit(endpoints[i], route, path)
    && forall e, r :: 0 <= e < |endpoints| && Hit(endpoints[e], r, path) ==> |r| <= |route| && (e < i ==> |r| < |route|)
  }

  lemma NobodyDeeper(endpoints: seq<Endpoint>, path: Path, i: nat, route: Path, k: nat)
    requires SlashLed(path) && SlashLed(route) && Published(endpoints) && IsChosen(endpoints, path, i, route)
    requires |RouteSegments(route)| < k <= |PathSegments(path)|
    ensures Owner(endpoints, PathSegments(path)[..k]).None?
  {
    hide Serves, PathSegments, RouteSegments, Owns, Owner;
    OwnerIs(endpoints, PathSegments(path)[..k]);
    forall e | 0 <= e < |endpoints| ensures !Owns(endpoints[e], PathSegments(path)[..k]) {
      if Owns(endpoints[e], PathSegments(path)[..k]) {
        var r := OwnerHits(endpoints[e], path, k);
        TiesAreIdentical(r, route, path);
      }
    }
  }

  lemma ChosenOwns(endpoints: seq<Endpoint>, path: Path, i: nat, route: Path)
    requires SlashLed(path) && SlashLed(route) && Published(endpoints) && IsChosen(endpoints, path, i, route)
    ensures |RouteSegments(route)| <= |PathSegments(path)|
    ensures Owner(endpoints, PathSegments(path)[..|RouteSegments(route)|]) == Some(endpoints[i])
  {
    hide Serves, PathSegments, RouteSegments, Owner, Published, SlashLed;
    ServesIsSegmentPrefix(route, path);
    var k := |RouteSegments(route)|;
    assert PathSegments(path)[..k] == RouteSegments(route);
    assert Owns(endpoints[i], RouteSegments(route));
    OwnerIs(endpoints, PathSegments(path)[..k]);
    forall e | 0 <= e < i ensures !Owns(endpoints[e], PathSegments(path)[..k]) {
      NobodyEarlier(endpoints, path, i, route, e);
    }
    assert IsFirstOwner(endpoints, PathSegments(path)[..k], i);
  }

  lemma NobodyEarlier(endpoints: seq<Endpoint>, path: Path, i: nat, route: Path, e: nat)
    requires SlashLed(path) && SlashLed(route) && Published(endpoints) && IsChosen(endpoints, path, i, route) && e < i
    requires |RouteSegments(route)| <= |PathSegments(path)|
    ensures !Owns(endpoints[e], PathSegments(path)[..|RouteSegments(route)|])
  {
    hide Serves, PathSegments, RouteSegments, Owns, Hit;
    if Owns(endpoints[e], PathSegments(path)[..|RouteSegments(route)|]) {
      var r := OwnerHits(endpoints[e], path, |RouteSegments(route)|);
      HitServes(endpoints[i], route, path);
      HitServes(endpoints[e], r, path);
      TiesAreIdentical(r, route, path);
      TiesAreIdentical(route, r, path);
    }
  }

  lemma HitServes(endpoint: Endpoint, route: Path, path: Path)
    requires Hit(endpoint, route, path)
    ensures Serves(route, path)
  {}

  predicate Distinct(endpoints: seq<Endpoint>) {
    forall e, f :: 0 <= e < f < |endpoints| ==> forall r :: r in endpoints[e].routes ==> r !in endpoints[f].routes
  }

  /** In a published plan no route stands twice, so then the order of publication decides nothing. */
  lemma NoTiesInAPlan(endpoints: seq<Endpoint>, path: Path, first: nat, second: nat, r: Path, s: Path)
    requires SlashLed(path) && Published(endpoints) && Distinct(endpoints) && first < |endpoints|
             && second < |endpoints|
    requires Hit(endpoints[first], r, path) && Hit(endpoints[second], s, path) && |r| == |s|
    ensures first == second && r == s
  {
    hide Serves;
    TiesAreIdentical(r, s, path);
  }

  /** A request goes to the endpoint that the segments it arrived with lead to, each decoded on its own. */
  lemma RequestsFollowTheirSegments(endpoints: seq<Endpoint>, raw: Path)
    requires CanonicalPath(raw).Some? && Published(endpoints)
    ensures MatchingEndpoint(endpoints, DecodeUtf8(Unquote(raw)))
         == Walk(endpoints, Map(DecodeUtf8, Map(Unquote, PathSegments(raw))), |PathSegments(raw)|)
  {
    hide CanonicalPath, Canonical, Split, Unquote, DecodeUtf8, MatchingEndpoint, Walk, Map;
    assert CanonicalPath(raw) == Some(raw) && SlashLed(raw) by { CanonicalIsSlashLed(raw); }
    AcceptedStaysPut(raw);
    StaysSlashLed(raw);
    StaysSlashLed(Unquote(raw));
    RoutingIsSegmentWalk(endpoints, DecodeUtf8(Unquote(raw)));
    TailOfMap(DecodeUtf8, Map(Unquote, Split(raw)));
    TailOfMap(Unquote, Split(raw));
  }

  lemma CanonicalIsSlashLed(raw: Path)
    requires CanonicalPath(raw).Some?
    ensures CanonicalPath(raw) == Some(raw) && SlashLed(raw)
  {}

  lemma TailOfMap(f: Path -> Path, segments: seq<Path>)
    ensures |Map(f, segments)| == |segments|
    ensures segments != [] ==> Map(f, segments)[1..] == Map(f, segments[1..])
  {}
}
