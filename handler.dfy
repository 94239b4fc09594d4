/** The request handler registered with `app.use`: for every configured route
    it either sends the route's canned status and body or redirects to the
    real server, and the first-match-wins decision it was meant to make. */
module Handler {
  import opened Json
  import opened Routing
  import opened Validation

  datatype Request = Request(httpMethod: string, path: string)

  /** What the handler does to the response: `res.status(s).send(b)` or
      `res.redirect(url)`. */
  datatype Action = Send(status: int, body: JSON) | Redirect(url: string)

  /** Whether the handler returned, or threw from `config.routes.forEach`. */
  datatype HandlerOutcome = Completed | Crashed

  /** The intended decision for one request: serve a canned response, or
      forward to the real server. */
  datatype Decision = Serve(status: int, body: JSON) | Forward(targetUrl: string)

  /** The response object the handler writes to; it records every write. */
  class Response {
    var actions: seq<Action>

    constructor ()
      ensures actions == []
    {
      actions := [];
    }

    /** `res.status(status).send(body)` */
    method Send(status: int, body: JSON)
      modifies this
      ensures actions == old(actions) + [Action.Send(status, body)]
    {
      actions := actions + [Action.Send(status, body)];
    }

    /** `res.redirect(url)` */
    method Redirect(url: string)
      modifies this
      ensures actions == old(actions) + [Action.Redirect(url)]
    {
      actions := actions + [Action.Redirect(url)];
    }
  }

  /** `route.method === req.method && routeMatch(req.path, route.path)` */
  predicate RouteApplies(route: Route, req: Request) {
    route.httpMethod == req.httpMethod && PathMatches(req.path, route.path)
  }

  /** The write one iteration of the `forEach` makes for `route`. */
  function ActionFor(route: Route, fallbackUrl: string, req: Request): Action {
    if RouteApplies(route, req) then Send(route.status, route.body)
    else Redirect(fallbackUrl + req.path)
  }

  /** The writes of the whole `forEach`, one per route, in order. */
  function Emitted(routes: seq<Route>, fallbackUrl: string, req: Request): seq<Action>
    decreases |routes|
  {
    if routes == [] then []
    else [ActionFor(routes[0], fallbackUrl, req)] + Emitted(routes[1..], fallbackUrl, req)
  }

  lemma {:induction false} EmittedAppend(a: seq<Route>, b: seq<Route>, fallbackUrl: string, req: Request)
    ensures Emitted(a + b, fallbackUrl, req) == Emitted(a, fallbackUrl, req) + Emitted(b, fallbackUrl, req)
    decreases |a|
  {
    if a == [] {
      assert a + b == b;
    } else {
      assert (a + b)[1..] == a[1..] + b;
      EmittedAppend(a[1..], b, fallbackUrl, req);
    }
  }

  /** The handler as written. The `return` after sending leaves only the
      `forEach` callback, so every route produces a write: a send when it
      applies, a redirect to the fallback otherwise. Without `routes` the
      `forEach` throws before any write. */
  method Handle(config: ProxyConfig, req: Request, res: Response) returns (outcome: HandlerOutcome)
    modifies res
    ensures outcome == Crashed <==> config.routes.None?
    ensures config.routes.None? ==> res.actions == old(res.actions)
    ensures config.routes.Some? ==>
      res.actions == old(res.actions) + Emitted(config.routes.value, config.fallbackUrl, req)
  {
    if config.routes.None? {
      return Crashed;
    }
    var routes := config.routes.value;
    var i := 0;
    while i < |routes|
      invariant 0 <= i <= |routes|
      invariant res.actions == old(res.actions) + Emitted(routes[..i], config.fallbackUrl, req)
    {
      var route := routes[i];
      var matched := false;
      if route.httpMethod == req.httpMethod {
        matched := RouteMatch(req.path, route.path);
      }
      if matched {
        res.Send(route.status, route.body);
      } else {
        res.Redirect(config.fallbackUrl + req.path);
      }
      assert routes[..i + 1] == routes[..i] + [route];
      EmittedAppend(routes[..i], [route], config.fallbackUrl, req);
      i := i + 1;
    }
    assert routes[..i] == routes;
    return Completed;
  }

  /** The handler writes once per route: a send carrying the route's status
      and body where the route applies, a redirect to the fallback URL
      followed by the request path everywhere else. */
  lemma {:induction false} OneWritePerRoute(routes: seq<Route>, fallbackUrl: string, req: Request)
    ensures |Emitted(routes, fallbackUrl, req)| == |routes|
    ensures forall i :: 0 <= i < |routes| ==>
      (RouteApplies(routes[i], req) ==> Emitted(routes, fallbackUrl, req)[i] == Send(routes[i].status, routes[i].body)) &&
      (!RouteApplies(routes[i], req) ==> Emitted(routes, fallbackUrl, req)[i] == Redirect(fallbackUrl + req.path))
    decreases |routes|
  {
    if routes != [] {
      OneWritePerRoute(routes[1..], fallbackUrl, req);
      forall i | 1 <= i < |routes|
        ensures Emitted(routes, fallbackUrl, req)[i] == Emitted(routes[1..], fallbackUrl, req)[i - 1]
      {
      }
    }
  }

  /** The decision the header comment of the server describes: the first
      route that applies wins, and without one the request falls through to
      the real server. */
  function Decide(routes: seq<Route>, fallbackUrl: string, req: Request): (d: Decision)
    ensures d.Serve? ==> exists i :: (0 <= i < |routes| && RouteApplies(routes[i], req) &&
      d == Serve(routes[i].status, routes[i].body))
    ensures d.Forward? ==> d == Forward(fallbackUrl + req.path)
    decreases |routes|
  {
    if routes == [] then Forward(fallbackUrl + req.path)
    else if RouteApplies(routes[0], req) then Serve(routes[0].status, routes[0].body)
    else Decide(routes[1..], fallbackUrl, req)
  }

  /** Route `i` is the first that applies to `req`. */
  predicate FirstApplicable(routes: seq<Route>, req: Request, i: int) {
    && 0 <= i < |routes|
    && RouteApplies(routes[i], req)
    && forall j :: 0 <= j < i ==> !RouteApplies(routes[j], req)
  }

  /** Decide serves exactly when some route applies, and then with the status
      and body of the first such route; otherwise it forwards to the fallback
      URL followed by the request path. */
  lemma {:induction false} FirstMatchWins(routes: seq<Route>, fallbackUrl: string, req: Request)
    ensures Decide(routes, fallbackUrl, req).Serve? <==>
      exists i :: 0 <= i < |routes| && RouteApplies(routes[i], req)
    ensures forall i :: FirstApplicable(routes, req, i) ==>
      Decide(routes, fallbackUrl, req) == Serve(routes[i].status, routes[i].body)
    ensures Decide(routes, fallbackUrl, req).Forward? ==>
      Decide(routes, fallbackUrl, req) == Forward(fallbackUrl + req.path)
    decreases |routes|
  {
    if routes != [] {
      FirstMatchWins(routes[1..], fallbackUrl, req);
      if exists i :: 0 <= i < |routes| && RouteApplies(routes[i], req) {
        var i :| 0 <= i < |routes| && RouteApplies(routes[i], req);
        if i > 0 && !RouteApplies(routes[0], req) {
          assert RouteApplies(routes[1..][i - 1], req);
        }
      }
      if exists i :: 0 <= i < |routes[1..]| && RouteApplies(routes[1..][i], req) {
        var i :| 0 <= i < |routes[1..]| && RouteApplies(routes[1..][i], req);
        assert RouteApplies(routes[i + 1], req);
      }
      forall i | FirstApplicable(routes, req, i)
        ensures Decide(routes, fallbackUrl, req) == Serve(routes[i].status, routes[i].body)
      {
        if i > 0 {
          assert FirstApplicable(routes[1..], req, i - 1);
        }
      }
    }
  }

  /** The first send of a sequence of writes, if there is one. */
  function FirstSend(actions: seq<Action>): Option<Action>
    decreases |actions|
  {
    if actions == [] then None
    else if actions[0].Send? then Some(actions[0])
    else FirstSend(actions[1..])
  }

  function ActionOf(d: Decision): Action {
    match d
    case Serve(status, body) => Send(status, body)
    case Forward(url) => Redirect(url)
  }

  /** How the writes of the handler as written relate to the intended
      decision: their first send is the decision's response when it serves,
      and when it forwards every write is that same redirect. */
  lemma {:induction false} HandlerAgreesWithDecision(routes: seq<Route>, fallbackUrl: string, req: Request)
    ensures FirstSend(Emitted(routes, fallbackUrl, req)) ==
      if Decide(routes, fallbackUrl, req).Serve? then Some(ActionOf(Decide(routes, fallbackUrl, req))) else None
    ensures Decide(routes, fallbackUrl, req).Forward? ==>
      forall k :: 0 <= k < |Emitted(routes, fallbackUrl, req)| ==>
        Emitted(routes, fallbackUrl, req)[k] == ActionOf(Decide(routes, fallbackUrl, req))
    decreases |routes|
  {
    if routes != [] {
      HandlerAgreesWithDecision(routes[1..], fallbackUrl, req);
      if !RouteApplies(routes[0], req) {
        var emitted := Emitted(routes, fallbackUrl, req);
        assert emitted[1..] == Emitted(routes[1..], fallbackUrl, req);
      }
    }
  }

  /** The `return` inside `forEach`, shown on two routes of which only the
      second applies: the handler redirects and then sends, two writes for one
      request, where the intended decision is the second route's response. */
  lemma ReturnOnlyLeavesCallback(fallbackUrl: string)
    ensures
      var first := Route("GET", "/a", 500, JStr("e"));
      var second := Route("GET", "/b", 503, JStr("x"));
      var req := Request("GET", "/b");
      && Emitted([first, second], fallbackUrl, req) == [Redirect(fallbackUrl + "/b"), Send(503, JStr("x"))]
      && Decide([first, second], fallbackUrl, req) == Serve(503, JStr("x"))
  {
    var first := Route("GET", "/a", 500, JStr("e"));
    var second := Route("GET", "/b", 503, JStr("x"));
    var req := Request("GET", "/b");
    LiteralRouteMatchesOnlyItself("/b", "/a");
    assert Join(["", "a"]) == "/a";
    SplitJoin(["", "a"]);
    assert "/b" != "/a" by {
      assert "/b"[1] != "/a"[1];
    }
    assert !RouteApplies(first, req);
    assert RouteApplies(second, req);
    assert [first, second][1..] == [second];
    assert [second][1..] == [];
    assert Emitted([second], fallbackUrl, req) == [Send(503, JStr("x"))];
  }

  /** A configuration without `routes` passes startup, so it reaches the
      handler, whose `forEach` then throws on every request. */
  lemma RoutelessConfigReachesHandler(url: string)
    requires url != ""
    ensures Startup(JObj(map[FallbackUrlKey := JStr(url)])) == Ok(ProxyConfig(url, None))
  {
  }

  /** The decision for a configuration, an absent `routes` counting as none. */
  function DecideConfig(config: ProxyConfig, req: Request): Decision {
    Decide(if config.routes.Some? then config.routes.value else [], config.fallbackUrl, req)
  }

  /** The handler as intended: it stops at the first route that applies and
      sends its response, and redirects once when none does, an absent
      `routes` included. Exactly one write per request. */
  method Dispatch(config: ProxyConfig, req: Request, res: Response)
    modifies res
    ensures res.actions == old(res.actions) + [ActionOf(DecideConfig(config, req))]
  {
    var routes := if config.routes.Some? then config.routes.value else [];
    FirstMatchWins(routes, config.fallbackUrl, req);
    var i := 0;
    while i < |routes|
      invariant 0 <= i <= |routes|
      invariant forall j :: 0 <= j < i ==> !RouteApplies(routes[j], req)
      invariant res.actions == old(res.actions)
    {
      var route := routes[i];
      var matched := false;
      if route.httpMethod == req.httpMethod {
        matched := RouteMatch(req.path, route.path);
      }
      if matched {
        assert FirstApplicable(routes, req, i);
        res.Send(route.status, route.body);
        return;
      }
      i := i + 1;
    }
    res.Redirect(config.fallbackUrl + req.path);
  }
}
