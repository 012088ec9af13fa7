/** The router of main.go: a two-level table from HTTP method and URL
    pattern to handler, filled by HandleFunc, and the dispatch rule of
    ServeHTTP, which hands a request to the handler of some registered
    pattern that matches its path, or answers NotFound. */
module Router {
  import opened Segments
  import opened Matcher

  /** A handler, seen from the router: an opaque identity. */
  datatype HandlerId = HandlerId(id: nat)

  /** router.handlers: HTTP method, then URL pattern, to handler. */
  type Table = map<string, map<string, HandlerId>>

  /** The parts of an *http.Request the router reads. */
  datatype Request = Request(httpMethod: string, path: string)

  /** The Context handed to a handler: the captured parameters and the
      request (the ResponseWriter is passed through untouched and is not
      modelled). */
  datatype Context = Context(params: Params, request: Request)

  /** What ServeHTTP does with a request: call one handler once with a
      context, or answer NotFound. */
  datatype Outcome = Dispatched(handler: HandlerId, context: Context) | NotFound

  /** The patterns registered under `httpMethod`; ranging over a missing
      (nil) inner map visits nothing, like ranging over an empty one. */
  function Routes(t: Table, httpMethod: string): map<string, HandlerId>
  {
    if httpMethod in t then t[httpMethod] else map[]
  }

  /** The handler stored for (method, pattern), if any. */
  function Lookup(t: Table, httpMethod: string, pattern: string): Option<HandlerId>
  {
    if pattern in Routes(t, httpMethod) then Some(Routes(t, httpMethod)[pattern]) else None
  }

  /** The table after HandleFunc(method, pattern, h). */
  function Register(t: Table, httpMethod: string, pattern: string, h: HandlerId): Table
  {
    t[httpMethod := Routes(t, httpMethod)[pattern := h]]
  }

  /** The parameters the context receives from a match result: the copy
      of a nil map is empty. */
  function OrEmpty(params: Option<Params>): Params
  {
    match params
    case None => map[]
    case Some(m) => m
  }

  /** Dispatching `req` to the registered pattern `p`. */
  function DispatchTo(t: Table, req: Request, p: string): Outcome
    requires p in Routes(t, req.httpMethod)
  {
    Dispatched(Routes(t, req.httpMethod)[p], Context(OrEmpty(Match(p, req.path).params), req))
  }

  /** Some pattern registered under the request's method matches its path. */
  ghost predicate Routable(t: Table, req: Request)
  {
    exists p :: p in Routes(t, req.httpMethod) && Match(p, req.path).matched
  }

  /** Every outcome ServeHTTP may produce. Go visits a map in no fixed
      order, so any matching pattern may be the first one it tries. */
  ghost function Outcomes(t: Table, req: Request): set<Outcome>
  {
    if Routable(t, req) then
      set p | p in Routes(t, req.httpMethod) && Match(p, req.path).matched :: DispatchTo(t, req, p)
    else
      {NotFound}
  }

  /** The loop of main.go:122-124 that copies the match's parameters into
      the context's map. */
  method CopyParams(params: Option<Params>) returns (copy: Params)
    ensures copy == OrEmpty(params)
  {
    copy := map[];
    if params.Some? {
      var source := params.value;
      var left := source.Keys;
      while left != {}
        invariant left <= source.Keys
        invariant copy.Keys == source.Keys - left
        invariant forall k :: k in copy ==> copy[k] == source[k]
        decreases left
      {
        var k :| k in left;
        copy := copy[k := source[k]];
        left := left - {k};
      }
    }
  }

  class Router {
    var handlers: Table

    /** &router{make(map[string]map[string]HandlerFunc)}. */
    constructor ()
      ensures handlers == map[]
    {
      handlers := map[];
    }

    /** Registers `h` for (method, pattern), creating the method's inner
        map on first use and replacing an earlier registration. */
    method HandleFunc(httpMethod: string, pattern: string, h: HandlerId)
      modifies this
      ensures handlers == Register(old(handlers), httpMethod, pattern, h)
      ensures forall m, p :: Lookup(handlers, m, p)
                == if m == httpMethod && p == pattern then Some(h) else Lookup(old(handlers), m, p)
    {
      var m: map<string, HandlerId>;
      if httpMethod in handlers {
        m := handlers[httpMethod];
      } else {
        m := map[];
        handlers := handlers[httpMethod := m];
      }
      m := m[pattern := h];
      handlers := handlers[httpMethod := m];
      RegisterLookup(old(handlers), httpMethod, pattern, h);
    }

    /** Hands `req` to the handler of the first matching pattern that the
        scan meets, or answers NotFound when none matches. */
    method ServeHTTP(req: Request) returns (outcome: Outcome)
      ensures outcome in Outcomes(handlers, req)
      ensures outcome == NotFound <==> !Routable(handlers, req)
    {
      var routes := Routes(handlers, req.httpMethod);
      var left := routes.Keys;
      while left != {}
        invariant left <= routes.Keys
        invariant forall q :: q in routes && q !in left ==> !Match(q, req.path).matched
        decreases left
      {
        var p :| p in left;
        var matched, params := MatchPaths(p, req.path);
        if matched {
          var captured := CopyParams(params);
          outcome := Dispatched(routes[p], Context(captured, req));
          assert outcome == DispatchTo(handlers, req, p);
          return;
        }
        left := left - {p};
      }
      outcome := NotFound;
    }
  }

  // ---------------------------------------------------------------------
  // Registration

  /** After registering, (method, pattern) holds `h`; every other entry is
      as it was. */
  lemma RegisterLookup(t: Table, httpMethod: string, pattern: string, h: HandlerId)
    ensures forall m, p :: Lookup(Register(t, httpMethod, pattern, h), m, p)
              == if m == httpMethod && p == pattern then Some(h) else Lookup(t, m, p)
  {
  }

  /** Registering does not remove patterns: the method's patterns gain
      `pattern`, other methods keep theirs. */
  lemma RegisterRoutes(t: Table, httpMethod: string, pattern: string, h: HandlerId, m: string)
    ensures Routes(Register(t, httpMethod, pattern, h), m).Keys
            == if m == httpMethod then Routes(t, m).Keys + {pattern} else Routes(t, m).Keys
  {
  }

  /** A second registration of the same pair replaces the first. */
  lemma RegisterTwice(t: Table, httpMethod: string, pattern: string, h1: HandlerId, h2: HandlerId)
    ensures Register(Register(t, httpMethod, pattern, h1), httpMethod, pattern, h2)
            == Register(t, httpMethod, pattern, h2)
  {
    var inner := Routes(t, httpMethod);
    assert Routes(Register(t, httpMethod, pattern, h1), httpMethod) == inner[pattern := h1];
    assert inner[pattern := h1][pattern := h2] == inner[pattern := h2];
  }

  // ---------------------------------------------------------------------
  // Dispatch

  /** An outcome is possible exactly when it is NotFound and nothing
      matches, or it dispatches to a registered matching pattern with that
      pattern's handler and parameters. */
  lemma OutcomesExactly(t: Table, req: Request, o: Outcome)
    ensures o in Outcomes(t, req) <==>
              (o == NotFound && !Routable(t, req))
              || (exists p :: p in Routes(t, req.httpMethod) && Match(p, req.path).matched
                              && o == DispatchTo(t, req, p))
  {
  }

  /** ServeHTTP always has an outcome, and NotFound is possible exactly when
      no registered pattern matches. */
  lemma NotFoundIffUnroutable(t: Table, req: Request)
    ensures Outcomes(t, req) != {}
    ensures NotFound in Outcomes(t, req) <==> !Routable(t, req)
  {
    if Routable(t, req) {
      var p :| p in Routes(t, req.httpMethod) && Match(p, req.path).matched;
      assert DispatchTo(t, req, p) in Outcomes(t, req);
    }
  }

  /** A dispatched request carries the parameters its pattern captured:
      none when the pattern is the path itself, and otherwise exactly the
      right-most capture of each name. */
  lemma DispatchedParams(t: Table, req: Request, p: string)
    requires p in Routes(t, req.httpMethod) && Match(p, req.path).matched
    ensures DispatchTo(t, req, p).handler == Routes(t, req.httpMethod)[p]
    ensures DispatchTo(t, req, p).context.request == req
    ensures p == req.path ==> DispatchTo(t, req, p).context.params == map[]
    ensures p != req.path ==>
              DispatchTo(t, req, p).context.params == Captures(Split(p), Split(req.path))
  {
    if p != req.path {
      MatchIffFits(p, req.path);
    }
  }

  /** A method with no registrations answers every request NotFound. */
  lemma UnregisteredMethodNotFound(t: Table, req: Request)
    requires req.httpMethod !in t
    ensures Outcomes(t, req) == {NotFound}
  {
  }

  /** When exactly one registered pattern matches, the outcome is fixed:
      repeated requests reach the same handler with the same parameters. */
  lemma UniqueMatchDetermined(t: Table, req: Request, p: string)
    requires p in Routes(t, req.httpMethod) && Match(p, req.path).matched
    requires forall q :: q in Routes(t, req.httpMethod) && Match(q, req.path).matched ==> q == p
    ensures Outcomes(t, req) == {DispatchTo(t, req, p)}
  {
    assert Routable(t, req);
  }

  /** Two registered patterns with different handlers that both match make
      two different outcomes possible: the choice is Go's iteration order. */
  lemma OverlapBothPossible(t: Table, req: Request, p1: string, p2: string)
    requires p1 in Routes(t, req.httpMethod) && Match(p1, req.path).matched
    requires p2 in Routes(t, req.httpMethod) && Match(p2, req.path).matched
    requires Routes(t, req.httpMethod)[p1] != Routes(t, req.httpMethod)[p2]
    ensures DispatchTo(t, req, p1) in Outcomes(t, req)
    ensures DispatchTo(t, req, p2) in Outcomes(t, req)
    ensures DispatchTo(t, req, p1) != DispatchTo(t, req, p2)
  {
    assert Routable(t, req);
  }

  /** Re-registering a pair leaves only the second handler reachable
      through that pattern. */
  lemma ReRegisteredHandlerWins(t: Table, httpMethod: string, pattern: string, h1: HandlerId, h2: HandlerId,
                                req: Request)
    requires req.httpMethod == httpMethod && Match(pattern, req.path).matched
    ensures var t2 := Register(Register(t, httpMethod, pattern, h1), httpMethod, pattern, h2);
            pattern in Routes(t2, httpMethod) && DispatchTo(t2, req, pattern).handler == h2
            && Outcomes(t2, req) == Outcomes(Register(t, httpMethod, pattern, h2), req)
  {
    RegisterTwice(t, httpMethod, pattern, h1, h2);
  }
}
