/**
 From a parsed configuration to the handler of a request: the location
 statements are validated, become routes, and a request goes to the longest route
 that is a prefix of its URI. The result depends neither on the order of the
 statements nor on the iteration order of the route table.
 */
module Dispatcher {
  import opened Options
  import opened ConfigGrammar
  import ConfigLexer
  import ConfigPrinter

  /** The handler registry: how each handler reads its arguments from a statement. */
  type Registry<!A> = map<string, Stmt -> Option<A>>

  datatype Location<+A> = Location(path: string, handler: string, args: A)

  predicate IsLocation(s: Stmt) {
    |s.tokens| == 3 && s.tokens[0] == "location"
  }

  predicate IsMalformed(s: Stmt) {
    |s.tokens| >= 1 && s.tokens[0] == "location" && |s.tokens| != 3
  }

  predicate IsQuoted(path: string)
    requires path != ""
  {
    || (path[0] == '"' && path[|path| - 1] == '"')
    || (path[0] == '\'' && path[|path| - 1] == '\'')
  }

  predicate ValidPath(path: string)
    requires path != ""
  {
    !IsQuoted(path) && !(path[|path| - 1] == '/' && path != "/") && path[0] == '/'
  }

  /** The parser makes no empty token. */
  predicate NoEmptyTokens(b: seq<Stmt>) {
    forall s :: s in b ==> "" !in s.tokens
  }

  /** The arguments of a location statement, if its handler is known and accepts it. */
  function ArgsOf<A>(registry: Registry<A>, s: Stmt): Option<A>
    requires IsLocation(s)
  {
    var handler := s.tokens[2];
    if handler in registry then registry[handler](s) else None
  }

  predicate Acceptable<A>(registry: Registry<A>, s: Stmt)
    requires "" !in s.tokens
  {
    !IsMalformed(s) && (IsLocation(s) ==> ValidPath(s.tokens[1]) && ArgsOf(registry, s).Some?)
  }

  predicate SamePath(s: Stmt, t: Stmt) {
    IsLocation(s) && IsLocation(t) && s.tokens[1] == t.tokens[1]
  }

  /** Every statement is acceptable by itself and no path is given twice. */
  predicate ValidLocations<A>(registry: Registry<A>, b: seq<Stmt>)
    requires NoEmptyTokens(b)
  {
    && (forall s :: s in b ==> Acceptable(registry, s))
    && (forall i, j :: 0 <= i < j < |b| ==> !SamePath(b[i], b[j]))
  }

  function LocationOf<A>(registry: Registry<A>, s: Stmt): Location<A>
    requires IsLocation(s) && ArgsOf(registry, s).Some?
  {
    Location(s.tokens[1], s.tokens[2], ArgsOf(registry, s).value)
  }

  function Locations<A>(registry: Registry<A>, b: seq<Stmt>): seq<Location<A>>
    requires forall s :: s in b && IsLocation(s) ==> ArgsOf(registry, s).Some?
  {
    if b == [] then []
    else
      var n := |b| - 1;
      Locations(registry, b[..n]) + if IsLocation(b[n]) then [LocationOf(registry, b[n])] else []
  }

  lemma {:induction false} LocationPaths<A>(registry: Registry<A>, b: seq<Stmt>, path: string)
    requires forall s :: s in b && IsLocation(s) ==> ArgsOf(registry, s).Some?
    ensures (exists l :: l in Locations(registry, b) && l.path == path)
            <==> exists s :: s in b && IsLocation(s) && s.tokens[1] == path
  {
    if b != [] {
      var n := |b| - 1;
      LocationPaths(registry, b[..n], path);
      assert b == b[..n] + [b[n]];
      if IsLocation(b[n]) {
        assert LocationOf(registry, b[n]) in Locations(registry, b);
      }
    }
  }

  method PathExists<A>(locations: seq<Location<A>>, path: string) returns (r: bool)
    ensures r <==> exists l :: l in locations && l.path == path
  {
    for i := 0 to |locations|
      invariant forall j :: 0 <= j < i ==> locations[j].path != path
    {
      if path == locations[i].path {
        assert locations[i] in locations;
        return true;
      }
    }
    return false;
  }

  /** The checks on one location statement. */
  method ReadLocation<A>(registry: Registry<A>, statement: Stmt, locations: seq<Location<A>>)
    returns (r: Option<Location<A>>)
    requires IsLocation(statement) && "" !in statement.tokens
    ensures r.Some? <==> Acceptable(registry, statement)
                         && !exists l :: l in locations && l.path == statement.tokens[1]
    ensures r.Some? ==> r.value == LocationOf(registry, statement)
  {
    var path, handler := statement.tokens[1], statement.tokens[2];
    if (path[0] == '"' && path[|path| - 1] == '"') || (path[0] == '\'' && path[|path| - 1] == '\'') {
      return None;
    }
    if path[|path| - 1] == '/' && path != "/" {
      return None;
    }
    if path[0] != '/' {
      return None;
    }
    var taken := PathExists(locations, path);
    if taken {
      return None;
    }
    if handler !in registry {
      return None;
    }
    var args := registry[handler](statement);
    if args.None? {
      return None;
    }
    return Some(Location(path, handler, args.value));
  }

  /** `get_locations`: the locations in order, or `None` where the result is not valid. */
  method GetLocations<A>(registry: Registry<A>, b: seq<Stmt>) returns (r: Option<seq<Location<A>>>)
    requires NoEmptyTokens(b)
    ensures r.Some? <==> ValidLocations(registry, b)
    ensures r.Some? ==> r.value == Locations(registry, b)
  {
    hide Acceptable, LocationOf;
    var locations: seq<Location<A>> := [];
    for i := 0 to |b|
      invariant NoEmptyTokens(b[..i]) && ValidLocations(registry, b[..i])
      invariant forall s :: s in b[..i] && IsLocation(s) ==> ArgsOf(registry, s).Some?
      invariant locations == Locations(registry, b[..i])
    {
      var statement := b[i];
      ValidSnoc(registry, b, i);
      AcceptableKinds(registry, statement);
      if ValidLocations(registry, b) {
        ValidPrefix(registry, b, i + 1);
      }
      assert b[..i + 1] == b[..i] + [statement];
      if |statement.tokens| == 3 && statement.tokens[0] == "location" {
        LocationPaths(registry, b[..i], statement.tokens[1]);
        var location := ReadLocation(registry, statement, locations);
        if location.None? {
          return None;
        }
        locations := locations + [location.value];
      } else if |statement.tokens| >= 1 && statement.tokens[0] == "location" {
        return None;
      }
    }
    assert b[..|b|] == b;
    return Some(locations);
  }

  /** Valid so far, one more statement keeps the locations valid exactly when it adds a new path. */
  lemma ValidSnoc<A>(registry: Registry<A>, b: seq<Stmt>, i: nat)
    requires NoEmptyTokens(b) && i < |b| && NoEmptyTokens(b[..i]) && ValidLocations(registry, b[..i])
    ensures NoEmptyTokens(b[..i + 1]) && "" !in b[i].tokens
    ensures var s := b[i];
            ValidLocations(registry, b[..i + 1])
            <==> Acceptable(registry, s)
                 && (IsLocation(s) ==> !exists t :: t in b[..i] && IsLocation(t) && t.tokens[1] == s.tokens[1])
  {
    hide Acceptable;
    var before, after := b[..i], b[..i + 1];
    assert after == before + [b[i]];
    if t :| t in before && SamePath(t, b[i]) {
      var k :| 0 <= k < i && before[k] == t;
      assert SamePath(after[k], after[i]);
    }
    assert forall j, k :: 0 <= j < k < i ==> after[j] == before[j] && after[k] == before[k];
  }

  /** A valid list has only valid prefixes. */
  lemma ValidPrefix<A>(registry: Registry<A>, b: seq<Stmt>, n: nat)
    requires NoEmptyTokens(b) && n <= |b| && ValidLocations(registry, b)
    ensures NoEmptyTokens(b[..n]) && ValidLocations(registry, b[..n])
  {
    hide Acceptable, SamePath;
    assert forall j :: 0 <= j < n ==> b[..n][j] == b[j];
  }

  lemma AcceptableKinds<A>(registry: Registry<A>, s: Stmt)
    requires "" !in s.tokens
    ensures !IsMalformed(s) && !IsLocation(s) ==> Acceptable(registry, s)
    ensures IsMalformed(s) ==> !Acceptable(registry, s)
    ensures Acceptable(registry, s) && IsLocation(s) ==> ArgsOf(registry, s).Some?
  {
  }

  // ---------------------------------------------------------------------------
  // Routes.

  /** `NoRoute` is the null pointer that looking up a missing key inserts. */
  datatype Route<+A> = Route(factory: string, uri: string, args: A) | NoRoute

  type Routes<+A> = map<string, Route<A>>

  function RouteOf<A>(registry: Registry<A>, s: Stmt): Route<A>
    requires IsLocation(s) && ArgsOf(registry, s).Some?
  {
    Route(s.tokens[2], s.tokens[1], ArgsOf(registry, s).value)
  }

  /** The routes are those of the location statements, no more and no fewer. */
  ghost predicate IsRouteTable<A>(registry: Registry<A>, b: seq<Stmt>, routes: Routes<A>) {
    && (forall s :: s in b && IsLocation(s) ==>
          ArgsOf(registry, s).Some? && s.tokens[1] in routes && routes[s.tokens[1]] == RouteOf(registry, s))
    && (forall path :: path in routes ==> exists s :: s in b && IsLocation(s) && s.tokens[1] == path)
  }

  // ---------------------------------------------------------------------------
  // The longest match.

  /** The longest prefix of a URL that is among the keys, or the empty string. */
  function LongestMatch(keys: set<string>, url: string): string {
    if url in keys || url == "" then url else LongestMatch(keys, url[..|url| - 1])
  }

  /** What the search over the table in any order establishes. */
  ghost predicate IsLongest(keys: set<string>, url: string, r: string) {
    && (r == "" || (r in keys && r <= url))
    && (forall key :: key in keys && key <= url ==> |key| <= |r|)
  }

  lemma {:induction false} LongestMatchIsLongest(keys: set<string>, url: string)
    ensures IsLongest(keys, url, LongestMatch(keys, url))
  {
    if url !in keys && url != "" {
      LongestMatchIsLongest(keys, url[..|url| - 1]);
      forall key | key in keys && key <= url
        ensures key <= url[..|url| - 1]
      {
        assert key != url;
        assert |key| < |url|;
      }
    }
  }

  /** There is only one longest match. */
  lemma LongestIsUnique(keys: set<string>, url: string, q: string, r: string)
    requires IsLongest(keys, url, q) && IsLongest(keys, url, r)
    ensures q == r
  {
    assert q <= url && r <= url && |q| == |r|;
    assert q == url[..|q|] && r == url[..|r|];
  }

  /** The route a request goes to, if the search ends at one. */
  function Dispatch<A>(routes: Routes<A>, url: string): Route<A> {
    var location := LongestMatch(routes.Keys, url);
    if location in routes then routes[location] else NoRoute
  }

  class RequestHandlerDispatcher<A> {
    var routes: Routes<A>

    constructor ()
      ensures routes == map[]
    {
      routes := map[];
    }

    method AddRoute(location: Location<A>) returns (ok: bool)
      modifies this
      ensures ok <==> location.path !in old(routes)
      ensures routes == if ok then old(routes)[location.path := Route(location.handler, location.path, location.args)]
                        else old(routes)
    {
      if location.path in routes {
        return false;
      }
      routes := routes[location.path := Route(location.handler, location.path, location.args)];
      return true;
    }

    /** False exactly on invalid locations; otherwise every location becomes a route. */
    method AddRoutes(registry: Registry<A>, config: seq<Stmt>) returns (ok: bool)
      requires NoEmptyTokens(config) && routes == map[]
      modifies this
      ensures ok <==> ValidLocations(registry, config)
      ensures if ok then IsRouteTable(registry, config, routes) else routes == map[]
      ensures ok ==> forall path :: path in routes ==> path != "" && path[0] == '/'
      ensures ok ==> forall path :: path in routes && path[|path| - 1] == '/' ==> path == "/"
      ensures ok ==> forall s :: s in config && s.tokens != [] && s.tokens[0] == "location" ==>
                |s.tokens| == 3 && s.tokens[1] in routes && s.tokens[2] in registry
                && registry[s.tokens[2]](s).Some?
                && routes[s.tokens[1]] == Route(s.tokens[2], s.tokens[1], registry[s.tokens[2]](s).value)
    {
      hide ValidPath, IsRouteTable;
      var result := GetLocations(registry, config);
      if result.None? {
        return false;
      }
      var locations := result.value;
      PathsDiffer(registry, config);
      for i := 0 to |locations|
        invariant TableOf(locations[..i], routes)
      {
        var added := AddRoute(locations[i]);
        assert locations[..i + 1] == locations[..i] + [locations[i]];
      }
      assert locations[..|locations|] == locations;
      TableOfLocations(registry, config, routes);
      RouteTableMeans(registry, config, routes);
      return true;
    }

    method LongestPrefixMatch(url: string) returns (longestMatch: string)
      ensures longestMatch == LongestMatch(routes.Keys, url)
    {
      var maxLength := 0;
      longestMatch := "";
      var left := routes.Keys;
      ghost var seen: set<string> := {};
      while left != {}
        invariant left + seen == routes.Keys
        invariant maxLength == |longestMatch| && IsLongest(seen, url, longestMatch)
        decreases left
      {
        var route :| route in left;
        if url[..if |route| < |url| then |route| else |url|] == route {
          if |route| > maxLength {
            maxLength := |route|;
            longestMatch := route;
          }
        }
        left, seen := left - {route}, seen + {route};
      }
      assert seen == routes.Keys;
      LongestMatchIsLongest(routes.Keys, url);
      LongestIsUnique(routes.Keys, url, longestMatch, LongestMatch(routes.Keys, url));
    }

    /**
     The route of a request. `NoRoute` is the use of a null pointer; where no
     route matched, the look-up has also left a null entry in the table.
     */
    method GetHandler(url: string) returns (route: Route<A>)
      modifies this
      ensures route == Dispatch(old(routes), url)
      ensures routes == if LongestMatch(old(routes).Keys, url) in old(routes) then old(routes)
                        else old(routes)["" := NoRoute]
    {
      var location := LongestPrefixMatch(url);
      LongestMatchIsLongest(routes.Keys, url);
      if location !in routes {
        routes := routes[location := NoRoute];
      }
      return routes[location];
    }
  }

  // ---------------------------------------------------------------------------
  // From statements to routes.

  ghost predicate TableOf<A>(locations: seq<Location<A>>, routes: Routes<A>) {
    && (forall l :: l in locations ==> l.path in routes)
    && (forall path :: path in routes ==>
          exists l :: l in locations && l.path == path && routes[path] == Route(l.handler, l.path, l.args))
  }

  predicate PathsDistinct<A>(locations: seq<Location<A>>) {
    forall i, j :: 0 <= i < j < |locations| ==> locations[i].path != locations[j].path
  }

  lemma {:induction false} PathsDiffer<A>(registry: Registry<A>, b: seq<Stmt>)
    requires NoEmptyTokens(b) && ValidLocations(registry, b)
    ensures PathsDistinct(Locations(registry, b))
  {
    hide ArgsOf, PathsDistinct, LocationOf;
    if b == [] {
      NoPaths<A>();
    } else {
      var n := |b| - 1;
      ValidInit(registry, b);
      PathsDiffer(registry, b[..n]);
      if IsLocation(b[n]) {
        LocationPaths(registry, b[..n], b[n].tokens[1]);
        PathsSnoc(Locations(registry, b[..n]), LocationOf(registry, b[n]), b[n].tokens[1]);
      } else {
        assert Locations(registry, b) == Locations(registry, b[..n]);
      }
    }
  }

  lemma NoPaths<A>()
    ensures PathsDistinct<A>([])
  {
  }

  lemma PathsSnoc<A>(locations: seq<Location<A>>, l: Location<A>, path: string)
    requires PathsDistinct(locations) && l.path == path
    requires !exists k :: k in locations && k.path == path
    ensures PathsDistinct(locations + [l])
  {
    assert forall i :: 0 <= i < |locations| ==> locations[i] in locations;
  }

  /** All statements but the last are valid too, and do not have the path of the last. */
  lemma ValidInit<A>(registry: Registry<A>, b: seq<Stmt>)
    requires b != [] && NoEmptyTokens(b) && ValidLocations(registry, b)
    ensures var n := |b| - 1;
            && NoEmptyTokens(b[..n]) && ValidLocations(registry, b[..n])
            && (forall s :: s in b && IsLocation(s) ==> ArgsOf(registry, s).Some?)
            && (IsLocation(b[n]) ==>
                  LocationOf(registry, b[n]).path == b[n].tokens[1]
                  && !exists s :: s in b[..n] && IsLocation(s) && s.tokens[1] == b[n].tokens[1])
  {
    hide ArgsOf, ValidPath;
    var n := |b| - 1;
    assert forall i :: 0 <= i < n ==> b[..n][i] == b[i];
    assert forall s :: s in b ==> Acceptable(registry, s);
    forall s | s in b[..n] && IsLocation(s)
      ensures IsLocation(b[n]) ==> s.tokens[1] != b[n].tokens[1]
    {
      var i :| 0 <= i < n && b[i] == s;
      assert !SamePath(b[i], b[n]);
    }
  }

  lemma {:induction false} LocationsFromStatements<A>(registry: Registry<A>, b: seq<Stmt>, l: Location<A>)
    requires forall s :: s in b && IsLocation(s) ==> ArgsOf(registry, s).Some?
    ensures l in Locations(registry, b) <==> exists s :: s in b && IsLocation(s) && LocationOf(registry, s) == l
  {
    if b != [] {
      var n := |b| - 1;
      assert b == b[..n] + [b[n]];
      LocationsFromStatements(registry, b[..n], l);
    }
  }

  lemma TableOfLocations<A>(registry: Registry<A>, b: seq<Stmt>, routes: Routes<A>)
    requires NoEmptyTokens(b) && ValidLocations(registry, b)
    requires TableOf(Locations(registry, b), routes)
    ensures IsRouteTable(registry, b, routes)
  {
    PathsDiffer(registry, b);
    forall s | s in b && IsLocation(s)
      ensures s.tokens[1] in routes && routes[s.tokens[1]] == RouteOf(registry, s)
    {
      var l := LocationOf(registry, s);
      LocationsFromStatements(registry, b, l);
      assert l in Locations(registry, b);
      var k :| k in Locations(registry, b) && k.path == l.path && routes[l.path] == Route(k.handler, k.path, k.args);
      SameLocation(Locations(registry, b), k, l);
    }
    forall path | path in routes
      ensures exists s :: s in b && IsLocation(s) && s.tokens[1] == path
    {
      LocationPaths(registry, b, path);
    }
  }

  lemma SameLocation<A>(locations: seq<Location<A>>, k: Location<A>, l: Location<A>)
    requires PathsDistinct(locations) && k in locations && l in locations && k.path == l.path
    ensures k == l
  {
    var i :| 0 <= i < |locations| && locations[i] == k;
    var j :| 0 <= j < |locations| && locations[j] == l;
    assert i == j;
  }

  // ---------------------------------------------------------------------------
  // What validation asks, and what it leaves, in tokens and characters.

  /**
   The answer to a configuration: every statement that starts with `location` has a
   path and a handler behind it, the path starts with a slash and ends in one only
   if it is `/`, the handler is known and takes the statement, and no two paths are
   equal.
   */
  lemma ValidMeans<A>(registry: Registry<A>, b: seq<Stmt>)
    requires NoEmptyTokens(b)
    ensures ValidLocations(registry, b)
            <==>
            && (forall s :: s in b && s.tokens != [] && s.tokens[0] == "location" ==>
                  && |s.tokens| == 3 && s.tokens[2] in registry && registry[s.tokens[2]](s).Some?
                  && s.tokens[1] != "" && s.tokens[1][0] == '/'
                  && (s.tokens[1][|s.tokens[1]| - 1] == '/' ==> s.tokens[1] == "/"))
            && (forall i, j :: 0 <= i < j < |b| && |b[i].tokens| == 3 && |b[j].tokens| == 3
                               && b[i].tokens[0] == "location" && b[j].tokens[0] == "location" ==>
                  b[i].tokens[1] != b[j].tokens[1])
  {
    forall s | s in b
      ensures Acceptable(registry, s)
              <==> (s.tokens != [] && s.tokens[0] == "location" ==>
                      && |s.tokens| == 3 && s.tokens[2] in registry && registry[s.tokens[2]](s).Some?
                      && s.tokens[1] != "" && s.tokens[1][0] == '/'
                      && (s.tokens[1][|s.tokens[1]| - 1] == '/' ==> s.tokens[1] == "/"))
    {
      AcceptableMeans(registry, s);
    }
    hide Acceptable;
    assert forall i, j :: 0 <= i < j < |b| ==>
        (SamePath(b[i], b[j])
         <==> |b[i].tokens| == 3 && |b[j].tokens| == 3
              && b[i].tokens[0] == "location" && b[j].tokens[0] == "location"
              && b[i].tokens[1] == b[j].tokens[1]);
  }

  lemma AcceptableMeans<A>(registry: Registry<A>, s: Stmt)
    requires "" !in s.tokens
    ensures Acceptable(registry, s)
            <==> (s.tokens != [] && s.tokens[0] == "location" ==>
                    && |s.tokens| == 3 && s.tokens[2] in registry && registry[s.tokens[2]](s).Some?
                    && s.tokens[1] != "" && s.tokens[1][0] == '/'
                    && (s.tokens[1][|s.tokens[1]| - 1] == '/' ==> s.tokens[1] == "/"))
  {
    if |s.tokens| == 3 {
      assert s.tokens[1] in s.tokens;
    }
  }

  /** The locations come in the order of their statements. */
  lemma LocationsFollowStatements<A>(registry: Registry<A>, b: seq<Stmt>, s: Stmt)
    requires NoEmptyTokens(b + [s]) && ValidLocations(registry, b + [s])
    requires forall t :: t in b && IsLocation(t) ==> ArgsOf(registry, t).Some?
    requires forall t :: t in b + [s] && IsLocation(t) ==> ArgsOf(registry, t).Some?
    ensures Locations(registry, []) == []
    ensures Locations(registry, b + [s])
            == Locations(registry, b)
               + if |s.tokens| == 3 && s.tokens[0] == "location" && s.tokens[2] in registry
                    && registry[s.tokens[2]](s).Some?
                 then [Location(s.tokens[1], s.tokens[2], registry[s.tokens[2]](s).value)] else []
  {
    assert (b + [s])[..|b|] == b;
    assert s in b + [s];
    hide ValidLocations;
  }

  /** A quoted path, one with a slash behind it and one without a slash in front are refused. */
  lemma PathsRefused<A>(registry: Registry<A>, b: seq<Stmt>, s: Stmt)
    requires NoEmptyTokens(b) && s in b && |s.tokens| == 3 && s.tokens[0] == "location"
    requires s.tokens[1] == "\"/a\"" || s.tokens[1] == "'/a'" || s.tokens[1] == "/a/" || s.tokens[1] == "a"
    ensures !ValidLocations(registry, b)
  {
    AcceptableMeans(registry, s);
    hide Acceptable;
  }

  /** The routes of a valid configuration. */
  lemma RouteTableMeans<A>(registry: Registry<A>, b: seq<Stmt>, routes: Routes<A>)
    requires NoEmptyTokens(b) && ValidLocations(registry, b) && IsRouteTable(registry, b, routes)
    ensures forall path :: path in routes ==> path != "" && path[0] == '/'
    ensures forall path :: path in routes && path[|path| - 1] == '/' ==> path == "/"
    ensures forall s :: s in b && s.tokens != [] && s.tokens[0] == "location" ==>
              |s.tokens| == 3 && s.tokens[1] in routes && s.tokens[2] in registry
              && registry[s.tokens[2]](s).Some?
              && routes[s.tokens[1]] == Route(s.tokens[2], s.tokens[1], registry[s.tokens[2]](s).value)
    ensures forall path :: path in routes ==>
              exists s :: s in b && |s.tokens| == 3 && s.tokens[0] == "location" && s.tokens[1] == path
  {
    ValidMeans(registry, b);
    hide ValidLocations;
  }

  // ---------------------------------------------------------------------------
  // What does not matter, and what a request gets.

  /** A parsed configuration satisfies what validation needs. */
  lemma ParsedHasNoEmptyTokens(text: string, b: seq<Stmt>)
    requires Parse(text) == Done(Accepted(b))
    ensures NoEmptyTokens(b)
  {
    ConfigPrinter.AcceptedIsPrintable(text, b);
    forall s | s in b
      ensures "" !in s.tokens
    {
      assert ConfigPrinter.PrintableStmt(s);
      assert !ConfigLexer.Lexable("");
    }
  }

  lemma TwiceCounts<T>(b: seq<T>, i: nat, j: nat)
    requires i < j < |b| && b[i] == b[j]
    ensures multiset(b)[b[j]] >= 2
  {
    assert b == b[..j] + [b[j]] + b[j + 1..];
    assert b[..j][i] == b[j];
    assert b[j] in multiset(b[..j]);
  }

  lemma CountTwice<T>(b: seq<T>, x: T) returns (i: nat, j: nat)
    requires multiset(b)[x] >= 2
    ensures i < j < |b| && b[i] == b[j] == x
  {
    assert x in multiset(b);
    j :| j < |b| && b[j] == x;
    var rest := b[..j] + b[j + 1..];
    assert b == b[..j] + [x] + b[j + 1..];
    assert multiset(b) == multiset(rest) + multiset{x};
    assert x in rest;
    i :| i < |rest| && rest[i] == x;
    if i >= j {
      i, j := j, i + 1;
    }
  }

  lemma SameMembers(a: seq<Stmt>, b: seq<Stmt>)
    requires multiset(a) == multiset(b)
    ensures forall s :: s in a <==> s in b
  {
    assert forall s :: s in a <==> s in multiset(a);
    assert forall s :: s in b <==> s in multiset(b);
  }

  /** Reordering the statements changes nothing about validity. */
  lemma PermutedValid<A>(registry: Registry<A>, a: seq<Stmt>, b: seq<Stmt>)
    requires multiset(a) == multiset(b) && NoEmptyTokens(a)
    ensures NoEmptyTokens(b)
    ensures ValidLocations(registry, a) <==> ValidLocations(registry, b)
  {
    SameMembers(a, b);
    if ValidLocations(registry, a) {
      PermutedStaysValid(registry, a, b);
    }
    if ValidLocations(registry, b) {
      PermutedStaysValid(registry, b, a);
    }
  }

  lemma PermutedStaysValid<A>(registry: Registry<A>, a: seq<Stmt>, b: seq<Stmt>)
    requires multiset(a) == multiset(b) && NoEmptyTokens(a) && NoEmptyTokens(b) && ValidLocations(registry, a)
    ensures ValidLocations(registry, b)
  {
    hide Acceptable, SamePath;
    SameMembers(a, b);
    forall i, j | 0 <= i < j < |b|
      ensures !SamePath(b[i], b[j])
    {
      if b[i] == b[j] {
        TwiceCounts(b, i, j);
        var k, l := CountTwice(a, b[j]);
        assert !SamePath(a[k], a[l]);
      } else {
        assert b[i] in a && b[j] in a;
        var k :| 0 <= k < |a| && a[k] == b[i];
        var l :| 0 <= l < |a| && a[l] == b[j];
        SamePathSymmetric(a[k], a[l]);
        assert if k < l then !SamePath(a[k], a[l]) else !SamePath(a[l], a[k]);
      }
    }
  }

  lemma SamePathSymmetric(s: Stmt, t: Stmt)
    ensures SamePath(s, t) <==> SamePath(t, s)
  {
  }

  /**
   Dispatch is order-free: configurations with the same top-level statements in
   any order are both valid or both invalid, and give the same routes, so every
   request goes the same way.
   */
  lemma DispatchIsOrderFree<A>(registry: Registry<A>, a: seq<Stmt>, b: seq<Stmt>,
                               q: Routes<A>, r: Routes<A>, url: string)
    requires multiset(a) == multiset(b) && NoEmptyTokens(a)
    requires IsRouteTable(registry, a, q) && IsRouteTable(registry, b, r)
    ensures NoEmptyTokens(b) && (ValidLocations(registry, a) <==> ValidLocations(registry, b))
    ensures q == r && Dispatch(q, url) == Dispatch(r, url)
  {
    hide NoEmptyTokens, ValidLocations, IsRouteTable, Dispatch;
    PermutedValid(registry, a, b);
    SameMembers(a, b);
    RoutesWithin(registry, a, b, q, r);
    RoutesWithin(registry, b, a, r, q);
  }

  lemma RoutesWithin<A>(registry: Registry<A>, a: seq<Stmt>, b: seq<Stmt>, q: Routes<A>, r: Routes<A>)
    requires forall s :: s in a ==> s in b
    requires IsRouteTable(registry, a, q) && IsRouteTable(registry, b, r)
    ensures forall path :: path in q ==> path in r && q[path] == r[path]
  {
    hide ArgsOf;
    forall path | path in q
      ensures path in r && q[path] == r[path]
    {
      var s :| s in a && IsLocation(s) && s.tokens[1] == path;
      assert s in b && q[path] == RouteOf(registry, s) && r[path] == RouteOf(registry, s);
    }
  }

  /** Location `s` is the longest of `b` whose path is a prefix of the URL. */
  ghost predicate BestLocation(b: seq<Stmt>, url: string, s: Stmt) {
    && s in b && IsLocation(s) && s.tokens[1] <= url
    && forall t :: t in b && IsLocation(t) && t.tokens[1] <= url ==> |t.tokens[1]| <= |s.tokens[1]|
  }

  /**
   A request goes to the route of a location exactly when that location's path is
   the longest that is a prefix of the URL; with no such location there is no
   route.
   */
  lemma DispatchMeans<A>(registry: Registry<A>, b: seq<Stmt>, routes: Routes<A>, url: string)
    requires NoEmptyTokens(b) && ValidLocations(registry, b) && IsRouteTable(registry, b, routes)
    ensures forall s :: s in b && IsLocation(s) ==>
              (BestLocation(b, url, s) <==> Dispatch(routes, url) == RouteOf(registry, s))
    ensures Dispatch(routes, url) == NoRoute <==> forall s :: s in b && IsLocation(s) ==> !(s.tokens[1] <= url)
  {
    hide ArgsOf, Acceptable;
    var best := LongestMatch(routes.Keys, url);
    LongestMatchIsLongest(routes.Keys, url);
    forall s | s in b && IsLocation(s)
      ensures s.tokens[1] != "" && s.tokens[1] in routes && ArgsOf(registry, s).Some?
      ensures s.tokens[1] <= url ==> |s.tokens[1]| <= |best|
    {
      assert s.tokens[1] in s.tokens;
    }
    if best in routes {
      BestIsDispatched(registry, b, routes, url, best);
    } else {
      assert best == "";
    }
  }

  lemma BestIsDispatched<A>(registry: Registry<A>, b: seq<Stmt>, routes: Routes<A>, url: string, best: string)
    requires NoEmptyTokens(b) && IsRouteTable(registry, b, routes)
    requires IsLongest(routes.Keys, url, best) && best in routes
    ensures best <= url && routes[best] != NoRoute
    ensures exists s :: s in b && IsLocation(s) && s.tokens[1] == best
    ensures forall s :: s in b && IsLocation(s) && ArgsOf(registry, s).Some? ==>
              (BestLocation(b, url, s) <==> routes[best] == RouteOf(registry, s))
  {
    hide ArgsOf;
    var t :| t in b && IsLocation(t) && t.tokens[1] == best;
    forall s | s in b && IsLocation(s) && ArgsOf(registry, s).Some?
      ensures BestLocation(b, url, s) <==> routes[best] == RouteOf(registry, s)
    {
      if BestLocation(b, url, s) {
        assert |s.tokens[1]| == |best|;
        assert s.tokens[1] == url[..|best|] == best;
      }
      assert routes[s.tokens[1]] == RouteOf(registry, s);
    }
  }

  /** With a location for `/`, every URI that starts with a slash has a route. */
  lemma RootCatchesAll<A>(registry: Registry<A>, b: seq<Stmt>, routes: Routes<A>, root: Stmt, url: string)
    requires NoEmptyTokens(b) && ValidLocations(registry, b) && IsRouteTable(registry, b, routes)
    requires root in b && IsLocation(root) && root.tokens[1] == "/" && url != "" && url[0] == '/'
    ensures Dispatch(routes, url) != NoRoute
  {
    hide Dispatch, RouteOf;
    DispatchMeans(registry, b, routes, url);
    assert root.tokens[1] <= url;
  }
}
