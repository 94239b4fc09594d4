/** `validateConfig` and the startup check after it: a fail-fast schema check
    over the decoded configuration, then the typed view the request handler
    reads from a configuration that passed. */
module Validation {
  import opened Json

  datatype Outcome<+E> = Pass | Fail(error: E)
  datatype Result<+T, +E> = Ok(value: T) | Err(error: E)

  const FallbackUrlKey := "fallbackUrl"
  const RoutesKey := "routes"
  const MethodKey := "method"
  const PathKey := "path"
  const StatusKey := "status"
  const BodyKey := "body"

  const AllowedMethods: seq<string> := ["GET", "POST", "PUT", "DELETE"]
  /** The accepted statuses are MinStatus <= status < StatusLimit. */
  const MinStatus := 100
  const StatusLimit := 600

  /** One constructor per `throw` of `validateConfig`, plus the TypeError that
      JavaScript's `in` raises on a value that is not an object. */
  datatype ValidationError =
    | NotAnObject
    | FallbackUrlRequired
    | FallbackUrlNotString
    | RoutesNotArray
    | MethodRequired
    | MethodNotAllowed
    | PathRequired
    | PathNotString
    | StatusRequired
    | StatusNotNumber
    | StatusOutOfRange
    | BodyRequired

  /** The key an error is about; "" for the TypeError, which names none. */
  function ErrorKey(e: ValidationError): string {
    match e
    case NotAnObject => ""
    case FallbackUrlRequired | FallbackUrlNotString => FallbackUrlKey
    case RoutesNotArray => RoutesKey
    case MethodRequired | MethodNotAllowed => MethodKey
    case PathRequired | PathNotString => PathKey
    case StatusRequired | StatusNotNumber | StatusOutOfRange => StatusKey
    case BodyRequired => BodyKey
  }

  /** The message of the thrown Error. It begins with the name of the key it
      is about. */
  function Message(e: ValidationError): (m: string)
    ensures |ErrorKey(e)| < |m| && m[..|ErrorKey(e)|] == ErrorKey(e)
  {
    match e
    case NotAnObject => "Cannot use 'in' operator to search for a key in a non-object"
    case FallbackUrlRequired => FallbackUrlKey + " is required"
    case FallbackUrlNotString => FallbackUrlKey + " must be a string"
    case RoutesNotArray => RoutesKey + " must be an array"
    case MethodRequired => MethodKey + " is required"
    case MethodNotAllowed => MethodKey + " must be one of GET, POST, PUT, DELETE"
    case PathRequired => PathKey + " is required"
    case PathNotString => PathKey + " must be a string"
    case StatusRequired => StatusKey + " is required"
    case StatusNotNumber => StatusKey + " must be a number"
    case StatusOutOfRange => StatusKey + " must be a valid HTTP status code"
    case BodyRequired => BodyKey + " is required"
  }

  /** No two errors share a message, so the message tells which check
      failed. */
  lemma MessagesDistinct(e1: ValidationError, e2: ValidationError)
    ensures Message(e1) == Message(e2) ==> e1 == e2
  {
    if Message(e1) == Message(e2) {
      var m := Message(e1);
      assert m[0] == Message(e2)[0] && |m| == |Message(e2)|;
      assert m[|m| - 1] == Message(e2)[|m| - 1];
    }
  }

  // Properties of one field, defined for every value, present or not.

  predicate HasString(v: JSON, key: string) {
    match Field(v, key)
    case Some(JStr(_)) => true
    case _ => false
  }

  predicate HasNumber(v: JSON, key: string) {
    match Field(v, key)
    case Some(JNum(_)) => true
    case _ => false
  }

  /** `AllowedMethods.includes(route.method)`: strict equality, so only a
      string can be allowed. */
  predicate HasAllowedMethod(route: JSON) {
    match Field(route, MethodKey)
    case Some(JStr(m)) => m in AllowedMethods
    case _ => false
  }

  predicate HasStatusInRange(route: JSON) {
    match Field(route, StatusKey)
    case Some(JNum(n)) => MinStatus <= n < StatusLimit
    case _ => false
  }

  predicate RoutesAbsentOrArray(config: JSON) {
    match Field(config, RoutesKey)
    case None => true
    case Some(JArr(_)) => true
    case Some(_) => false
  }

  /** The elements of `config.routes` when it is an array, else none. */
  function RouteElements(config: JSON): seq<JSON> {
    match Field(config, RoutesKey)
    case Some(JArr(routes)) => routes
    case _ => []
  }

  /** What a route must be: an object with an allowed method, a string path, a
      status in range, and a body key, whatever its value. */
  predicate WellFormedRoute(route: JSON) {
    && IsObject(route)
    && HasAllowedMethod(route)
    && HasString(route, PathKey)
    && HasStatusInRange(route)
    && Field(route, BodyKey).Some?
  }

  /** What a configuration must be: a string `fallbackUrl`, and `routes`
      absent or an array of well-formed routes. */
  predicate WellFormedConfig(config: JSON) {
    && IsObject(config)
    && HasString(config, FallbackUrlKey)
    && RoutesAbsentOrArray(config)
    && forall i :: 0 <= i < |RouteElements(config)| ==> WellFormedRoute(RouteElements(config)[i])
  }

  /** The body of the `forEach` callback: the checks on one route, in the
      source's order, stopping at the first that fails. */
  function CheckRoute(route: JSON): (r: Outcome<ValidationError>)
    ensures r.Pass? <==> WellFormedRoute(route)
  {
    if !IsObject(route) then Fail(NotAnObject)
    else if Field(route, MethodKey).None? then Fail(MethodRequired)
    else if !HasAllowedMethod(route) then Fail(MethodNotAllowed)
    else if Field(route, PathKey).None? then Fail(PathRequired)
    else if !HasString(route, PathKey) then Fail(PathNotString)
    else if Field(route, StatusKey).None? then Fail(StatusRequired)
    else if !HasNumber(route, StatusKey) then Fail(StatusNotNumber)
    else if !HasStatusInRange(route) then Fail(StatusOutOfRange)
    else if Field(route, BodyKey).None? then Fail(BodyRequired)
    else Pass
  }

  /** `config.routes.forEach(...)`: the routes in array order, the first
      error thrown ending the walk. */
  function ValidateRoutes(routes: seq<JSON>): (r: Outcome<ValidationError>)
    ensures r.Pass? <==> forall i :: 0 <= i < |routes| ==> WellFormedRoute(routes[i])
    decreases |routes|
  {
    if routes == [] then Pass
    else
      match CheckRoute(routes[0])
      case Fail(e) => Fail(e)
      case Pass => ValidateRoutes(routes[1..])
  }

  /** `validateConfig`: `fallbackUrl` first, then `routes` when present. It
      returns nothing and changes nothing; only whether it throws, and what,
      is observable. */
  function ValidateConfig(config: JSON): (r: Outcome<ValidationError>)
    ensures r.Pass? <==> WellFormedConfig(config)
  {
    if !IsObject(config) then Fail(NotAnObject)
    else if Field(config, FallbackUrlKey).None? then Fail(FallbackUrlRequired)
    else if !HasString(config, FallbackUrlKey) then Fail(FallbackUrlNotString)
    else if Field(config, RoutesKey).None? then Pass
    else if !Field(config, RoutesKey).value.JArr? then Fail(RoutesNotArray)
    else
      var routes := Field(config, RoutesKey).value.elems;
      assert routes == RouteElements(config);
      ValidateRoutes(routes)
  }

  // The same checks laid out as one ordered list, to state which error a
  // failing configuration reports.

  datatype Check = Check(holds: bool, error: ValidationError)

  /** Index `i` holds the first check that fails. */
  predicate FailsFirstAt(checks: seq<Check>, i: int) {
    && 0 <= i < |checks|
    && !checks[i].holds
    && forall j :: 0 <= j < i ==> checks[j].holds
  }

  /** Run the checks in order and report the error of the first that fails. */
  function FirstFailure(checks: seq<Check>): Outcome<ValidationError>
    decreases |checks|
  {
    if checks == [] then Pass
    else if !checks[0].holds then Fail(checks[0].error)
    else FirstFailure(checks[1..])
  }

  /** The checks on one route, in the order the source makes them. */
  function RouteChecks(route: JSON): seq<Check> {
    [ Check(IsObject(route), NotAnObject),
      Check(Field(route, MethodKey).Some?, MethodRequired),
      Check(HasAllowedMethod(route), MethodNotAllowed),
      Check(Field(route, PathKey).Some?, PathRequired),
      Check(HasString(route, PathKey), PathNotString),
      Check(Field(route, StatusKey).Some?, StatusRequired),
      Check(HasNumber(route, StatusKey), StatusNotNumber),
      Check(HasStatusInRange(route), StatusOutOfRange),
      Check(Field(route, BodyKey).Some?, BodyRequired) ]
  }

  function AllRouteChecks(routes: seq<JSON>): seq<Check>
    decreases |routes|
  {
    if routes == [] then [] else RouteChecks(routes[0]) + AllRouteChecks(routes[1..])
  }

  /** Every check of a configuration: its own four, then each route's nine,
      routes in array order. */
  function ConfigChecks(config: JSON): seq<Check> {
    [ Check(IsObject(config), NotAnObject),
      Check(Field(config, FallbackUrlKey).Some?, FallbackUrlRequired),
      Check(HasString(config, FallbackUrlKey), FallbackUrlNotString),
      Check(RoutesAbsentOrArray(config), RoutesNotArray) ]
    + AllRouteChecks(RouteElements(config))
  }

  /** FirstFailure passes exactly when every check holds, and otherwise reports
      the error of the first check that fails. */
  lemma {:induction false} FirstFailureReportsFirstFailingCheck(checks: seq<Check>)
    ensures FirstFailure(checks).Pass? <==> forall i :: 0 <= i < |checks| ==> checks[i].holds
    ensures forall i :: FailsFirstAt(checks, i) ==> FirstFailure(checks) == Fail(checks[i].error)
    ensures FirstFailure(checks).Fail? ==>
      exists i :: FailsFirstAt(checks, i) && checks[i].error == FirstFailure(checks).error
    decreases |checks|
  {
    if checks != [] {
      FirstFailureReportsFirstFailingCheck(checks[1..]);
      forall i | FailsFirstAt(checks, i)
        ensures FirstFailure(checks) == Fail(checks[i].error)
      {
        if i > 0 {
          assert FailsFirstAt(checks[1..], i - 1);
        }
      }
      if FirstFailure(checks).Fail? && checks[0].holds {
        var i :| FailsFirstAt(checks[1..], i) && checks[1..][i].error == FirstFailure(checks).error;
        assert FailsFirstAt(checks, i + 1);
      } else if FirstFailure(checks).Fail? {
        assert FailsFirstAt(checks, 0);
      }
      if forall i :: 0 <= i < |checks[1..]| ==> checks[1..][i].holds {
        assert forall i :: 1 <= i < |checks| ==> checks[i].holds by {
          forall i | 1 <= i < |checks| ensures checks[i].holds {
            assert checks[i] == checks[1..][i - 1];
          }
        }
      }
    }
  }

  lemma FirstFailureStep(checks: seq<Check>, i: nat)
    requires i < |checks|
    ensures FirstFailure(checks[i..]) ==
      if !checks[i].holds then Fail(checks[i].error) else FirstFailure(checks[i + 1..])
  {
    assert checks[i..][1..] == checks[i + 1..];
  }

  lemma {:induction false} FirstFailureAppend(a: seq<Check>, b: seq<Check>)
    ensures FirstFailure(a + b) == if FirstFailure(a).Fail? then FirstFailure(a) else FirstFailure(b)
    decreases |a|
  {
    if a == [] {
      assert a + b == b;
    } else {
      assert (a + b)[1..] == a[1..] + b;
      FirstFailureAppend(a[1..], b);
    }
  }

  /** CheckRoute reports the first failing check of RouteChecks. */
  lemma CheckRouteReportsFirstFailure(route: JSON)
    ensures CheckRoute(route) == FirstFailure(RouteChecks(route))
  {
    var checks := RouteChecks(route);
    assert checks[9..] == [];
    FirstFailureStep(checks, 8);
    FirstFailureStep(checks, 7);
    FirstFailureStep(checks, 6);
    FirstFailureStep(checks, 5);
    FirstFailureStep(checks, 4);
    FirstFailureStep(checks, 3);
    FirstFailureStep(checks, 2);
    FirstFailureStep(checks, 1);
    FirstFailureStep(checks, 0);
    assert checks[0..] == checks;
  }

  lemma {:induction false} ValidateRoutesReportsFirstFailure(routes: seq<JSON>)
    ensures ValidateRoutes(routes) == FirstFailure(AllRouteChecks(routes))
    decreases |routes|
  {
    if routes != [] {
      CheckRouteReportsFirstFailure(routes[0]);
      ValidateRoutesReportsFirstFailure(routes[1..]);
      FirstFailureAppend(RouteChecks(routes[0]), AllRouteChecks(routes[1..]));
    }
  }

  /** The error `validateConfig` throws is that of the first failing check of
      ConfigChecks: `fallbackUrl` before `routes`, routes in array order, and
      within a route method, path, status, then body. */
  lemma ValidateConfigReportsFirstFailure(config: JSON)
    ensures ValidateConfig(config) == FirstFailure(ConfigChecks(config))
  {
    var header := ConfigChecks(config)[..4];
    assert ConfigChecks(config) == header + AllRouteChecks(RouteElements(config));
    FirstFailureAppend(header, AllRouteChecks(RouteElements(config)));
    ValidateRoutesReportsFirstFailure(RouteElements(config));
    assert header[4..] == [];
    FirstFailureStep(header, 3);
    FirstFailureStep(header, 2);
    FirstFailureStep(header, 1);
    FirstFailureStep(header, 0);
    assert header[0..] == header;
  }

  /** The routes are checked in array order: a failure is that of the first
      ill-formed route, every route before it being well-formed. */
  lemma {:induction false} FirstBadRouteReported(routes: seq<JSON>, e: ValidationError)
    ensures ValidateRoutes(routes) == Fail(e) <==>
      exists i :: 0 <= i < |routes| && CheckRoute(routes[i]) == Fail(e) &&
        forall j :: 0 <= j < i ==> WellFormedRoute(routes[j])
    decreases |routes|
  {
    if routes != [] {
      FirstBadRouteReported(routes[1..], e);
      if ValidateRoutes(routes) == Fail(e) && CheckRoute(routes[0]).Pass? {
        var i :| 0 <= i < |routes[1..]| && CheckRoute(routes[1..][i]) == Fail(e) &&
          forall j :: 0 <= j < i ==> WellFormedRoute(routes[1..][j]);
        assert CheckRoute(routes[i + 1]) == Fail(e);
      }
      if exists i :: (0 <= i < |routes| && CheckRoute(routes[i]) == Fail(e) &&
        forall j :: 0 <= j < i ==> WellFormedRoute(routes[j]))
      {
        var i :| 0 <= i < |routes| && CheckRoute(routes[i]) == Fail(e) &&
          forall j :: 0 <= j < i ==> WellFormedRoute(routes[j]);
        if i > 0 {
          assert CheckRoute(routes[1..][i - 1]) == Fail(e);
          assert forall j :: 0 <= j < i - 1 ==> WellFormedRoute(routes[1..][j]) by {
            forall j | 0 <= j < i - 1 ensures WellFormedRoute(routes[1..][j]) {
              assert routes[1..][j] == routes[j + 1];
            }
          }
        }
      }
    }
  }

  /** A route object with the four keys set. */
  function RouteObject(httpMethod: string, path: string, status: int, body: JSON): JSON {
    JObj(map[MethodKey := JStr(httpMethod), PathKey := JStr(path), StatusKey := JNum(status), BodyKey := body])
  }

  /** The status bounds: 100 and 599 are accepted, 99 and 600 are not. The
      body is checked by key, so `null`, "" and `false` are bodies too. */
  lemma StatusBoundsAndAnyBody(httpMethod: string, path: string, status: int, body: JSON)
    requires httpMethod in AllowedMethods
    ensures CheckRoute(RouteObject(httpMethod, path, status, body)) ==
      if 100 <= status < 600 then Pass else Fail(StatusOutOfRange)
  {
  }

  /** A method outside the four is refused before anything else is looked at. */
  lemma DisallowedMethodReported(httpMethod: string, path: JSON, status: JSON, body: JSON)
    requires httpMethod !in AllowedMethods
    ensures CheckRoute(JObj(map[MethodKey := JStr(httpMethod), PathKey := path, StatusKey := status, BodyKey := body]))
      == Fail(MethodNotAllowed)
  {
  }

  /** Without a string `fallbackUrl` the routes are never looked at. */
  lemma FallbackUrlCheckedFirst(config: JSON)
    requires IsObject(config) && !HasString(config, FallbackUrlKey)
    ensures ValidateConfig(config) ==
      if Field(config, FallbackUrlKey).None? then Fail(FallbackUrlRequired) else Fail(FallbackUrlNotString)
  {
  }

  /** A configuration without `routes` is valid. */
  lemma AbsentRoutesValid(url: string)
    ensures ValidateConfig(JObj(map[FallbackUrlKey := JStr(url)])) == Pass
  {
  }

  // What main and the handler read from a validated configuration.

  datatype Route = Route(httpMethod: string, path: string, status: int, body: JSON)
  datatype ProxyConfig = ProxyConfig(fallbackUrl: string, routes: Option<seq<Route>>)

  /** The failures of startup after the file is decoded: the validator throws,
      or `fallbackUrl` is falsy (`!fallbackUrl`, for a string: empty). */
  datatype StartupError = Invalid(error: ValidationError) | NoFallbackUrl

  /** `route` holds exactly the fields of the JSON route `v`. */
  predicate ReadsAs(v: JSON, route: Route) {
    && Field(v, MethodKey) == Some(JStr(route.httpMethod))
    && Field(v, PathKey) == Some(JStr(route.path))
    && Field(v, StatusKey) == Some(JNum(route.status))
    && Field(v, BodyKey) == Some(route.body)
  }

  predicate ValidRoute(route: Route) {
    route.httpMethod in AllowedMethods && MinStatus <= route.status < StatusLimit
  }

  function ReadRoute(v: JSON): (route: Route)
    requires WellFormedRoute(v)
    ensures ReadsAs(v, route) && ValidRoute(route)
  {
    Route(Field(v, MethodKey).value.s, Field(v, PathKey).value.s, Field(v, StatusKey).value.n, Field(v, BodyKey).value)
  }

  /** `routes` holds the routes of `config`, in order, each read field for
      field; absent when the configuration has no `routes` key. */
  predicate RoutesReadAs(config: JSON, routes: Option<seq<Route>>) {
    match Field(config, RoutesKey)
    case None => routes.None?
    case Some(_) =>
      && routes.Some?
      && |routes.value| == |RouteElements(config)|
      && forall i :: 0 <= i < |routes.value| ==> ReadsAs(RouteElements(config)[i], routes.value[i])
  }

  function ReadRoutes(config: JSON): (routes: Option<seq<Route>>)
    requires WellFormedConfig(config)
    ensures RoutesReadAs(config, routes)
    ensures routes.Some? ==> forall i :: 0 <= i < |routes.value| ==> ValidRoute(routes.value[i])
  {
    if Field(config, RoutesKey).None? then None
    else
      var elems := RouteElements(config);
      Some(seq(|elems|, i requires 0 <= i < |elems| => ReadRoute(elems[i])))
  }

  /** `validateConfig(config)` followed by the `!fallbackUrl` check of `main`:
      only a configuration that passes both reaches the handler, and then with
      a non-empty fallback URL and its routes read unchanged. */
  function Startup(config: JSON): (r: Result<ProxyConfig, StartupError>)
    ensures r.Ok? <==> WellFormedConfig(config) && Field(config, FallbackUrlKey) != Some(JStr(""))
    ensures ValidateConfig(config).Fail? ==> r == Err(Invalid(ValidateConfig(config).error))
    ensures ValidateConfig(config).Pass? && Field(config, FallbackUrlKey) == Some(JStr("")) ==> r == Err(NoFallbackUrl)
    ensures r.Ok? ==> r.value.fallbackUrl != "" && Field(config, FallbackUrlKey) == Some(JStr(r.value.fallbackUrl))
    ensures r.Ok? ==> RoutesReadAs(config, r.value.routes)
  {
    match ValidateConfig(config)
    case Fail(e) => Err(Invalid(e))
    case Pass =>
      var url := Field(config, FallbackUrlKey).value.s;
      if url == "" then Err(NoFallbackUrl)
      else Ok(ProxyConfig(url, ReadRoutes(config)))
  }

  /** An empty `fallbackUrl` is a string, so it passes validation, and is then
      refused by the falsiness check. */
  lemma EmptyFallbackRefusedAtStartup()
    ensures ValidateConfig(JObj(map[FallbackUrlKey := JStr("")])) == Pass
    ensures Startup(JObj(map[FallbackUrlKey := JStr("")])) == Err(NoFallbackUrl)
  {
  }
}
