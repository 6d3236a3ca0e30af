/** The outbox processor's routing table: event type -> routes, in definition order. */
module EventRouter {

  /** One place an event goes to. The job name and payload builder travel with the route. */
  datatype Route = Route(queue: string, job: string)

  datatype RouteDefinition = RouteDefinition(eventType: string, route: Route)

  type Router = map<string, seq<Route>>

  function Resolve(router: Router, eventType: string): seq<Route> {
    if eventType in router then router[eventType] else []
  }

  /** The routes declared for one event type, in the order of their declaration. */
  function Declared(definitions: seq<RouteDefinition>, eventType: string): seq<Route> {
    if definitions == [] then []
    else
      (if definitions[0].eventType == eventType then [definitions[0].route] else [])
      + Declared(definitions[1..], eventType)
  }

  lemma {:induction false} DeclaredSplits(a: seq<RouteDefinition>, b: seq<RouteDefinition>, eventType: string)
    ensures Declared(a + b, eventType) == Declared(a, eventType) + Declared(b, eventType)
  {
    if a == [] {
      assert a + b == b;
    } else {
      DeclaredSplits(a[1..], b, eventType);
      assert (a + b)[0] == a[0] && (a + b)[1..] == a[1..] + b;
      var here := if a[0].eventType == eventType then [a[0].route] else [];
      assert here + (Declared(a[1..], eventType) + Declared(b, eventType))
          == here + Declared(a[1..], eventType) + Declared(b, eventType);
    }
  }

  /** One definition declares its route once, for its own type. */
  lemma DeclaredOnce(d: RouteDefinition, eventType: string)
    ensures Declared([], eventType) == []
    ensures Declared([d], eventType) == if d.eventType == eventType then [d.route] else []
  {
    assert [d][1..] == [];
  }

  /** A route is declared for a type exactly when some definition says so. */
  lemma {:induction false} DeclaredIffDefined(definitions: seq<RouteDefinition>, eventType: string, route: Route)
    ensures route in Declared(definitions, eventType) <==> RouteDefinition(eventType, route) in definitions
  {
    if definitions != [] {
      DeclaredIffDefined(definitions[1..], eventType, route);
      assert definitions == [definitions[0]] + definitions[1..];
    }
  }

  lemma OneMoreIndexed(routes: Router, definitions: seq<RouteDefinition>, d: RouteDefinition)
    requires forall t :: Resolve(routes, t) == Declared(definitions, t)
    ensures forall t ::
      Resolve(routes[d.eventType := Resolve(routes, d.eventType) + [d.route]], t) == Declared(definitions + [d], t)
  {
    forall t
      ensures Resolve(routes[d.eventType := Resolve(routes, d.eventType) + [d.route]], t) == Declared(definitions + [d], t)
    {
      DeclaredSplits(definitions, [d], t);
      assert Resolve(routes, t) == Declared(definitions, t);
    }
  }

  /** The index that the constructor builds with a loop over the definitions. */
  class EventRoutingService {
    var routes: Router

    constructor (definitions: seq<RouteDefinition>)
      ensures forall t :: Resolve(routes, t) == Declared(definitions, t)
      ensures forall t :: t in routes ==> routes[t] != []
    {
      routes := map[];
      new;
      var i := 0;
      while i < |definitions|
        invariant 0 <= i <= |definitions|
        invariant forall t :: Resolve(routes, t) == Declared(definitions[..i], t)
        invariant forall t :: t in routes ==> routes[t] != []
      {
        var d := definitions[i];
        ghost var before := definitions[..i];
        OneMoreIndexed(routes, before, d);
        routes := routes[d.eventType := Resolve(routes, d.eventType) + [d.route]];
        assert definitions[..i + 1] == before + [d];
        i := i + 1;
      }
      assert definitions[..i] == definitions;
    }
  }
}
