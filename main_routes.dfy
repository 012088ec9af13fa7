/** The routes main() registers (main.go:13-43), used as concrete cases
    of dispatch. Each pattern is written by its segments: Join(["", "users",
    ":id"]) is the pattern "/users/:id". The handlers become opaque
    identities. */
module MainRoutes {
  import opened Segments
  import opened Matcher
  import opened Router

  const Welcome := HandlerId(0)
  const About := HandlerId(1)
  const UserById := HandlerId(2)
  const UserAddress := HandlerId(3)
  const CreateUser := HandlerId(4)
  const CreateAddress := HandlerId(5)

  /** The table after the six registrations of main(). */
  function MainTable(): Table
  {
    var t: Table := map[];
    var t := Register(t, "GET", "/", Welcome);
    var t := Register(t, "GET", "/about", About);
    var t := Register(t, "GET", "/users/:id", UserById);
    var t := Register(t, "GET", "/users/:user_id/addresses/:address_id", UserAddress);
    var t := Register(t, "POST", "/users", CreateUser);
    Register(t, "POST", "/users/:user_id/addresses", CreateAddress)
  }

  /** main.go:13-43 without starting the server. */
  method SetUpRoutes() returns (r: Router)
    ensures fresh(r) && r.handlers == MainTable()
  {
    r := new Router();
    r.HandleFunc("GET", "/", Welcome);
    r.HandleFunc("GET", "/about", About);
    r.HandleFunc("GET", "/users/:id", UserById);
    r.HandleFunc("GET", "/users/:user_id/addresses/:address_id", UserAddress);
    r.HandleFunc("POST", "/users", CreateUser);
    r.HandleFunc("POST", "/users/:user_id/addresses", CreateAddress);
  }

  /** The two methods main() registers, and the handler of "/about". */
  lemma MainTableShape()
    ensures MainTable().Keys == {"GET", "POST"}
    ensures "/about" in Routes(MainTable(), "GET") && Routes(MainTable(), "GET")["/about"] == About
  {
  }

  /** DELETE has no registrations, so every DELETE request is NotFound. */
  lemma DeleteNotFound(path: string)
    ensures Outcomes(MainTable(), Request("DELETE", path)) == {NotFound}
  {
    MainTableShape();
    UnregisteredMethodNotFound(MainTable(), Request("DELETE", path));
  }

  /** GET /about can reach the handler of main.go:21 by the fast path, with
      no parameters, and is never NotFound. */
  lemma GetAbout()
    ensures var req := Request("GET", "/about");
            Dispatched(About, Context(map[], req)) in Outcomes(MainTable(), req)
            && NotFound !in Outcomes(MainTable(), req)
  {
    var req := Request("GET", "/about");
    MainTableShape();
    assert Match("/about", "/about").matched;
    assert DispatchTo(MainTable(), req, "/about") == Dispatched(About, Context(map[], req));
    NotFoundIffUnroutable(MainTable(), req);
  }

  // ---------------------------------------------------------------------
  // Overlapping patterns

  /** A literal and a parametric GET pattern that both fit "/users/admin". */
  function OverlapTable(admin: HandlerId, byId: HandlerId): Table
  {
    Register(Register(map[], "GET", "/users/admin", admin), "GET", "/users/:id", byId)
  }

  /** "/users/:id" captures "admin" from "/users/admin". */
  lemma AdminFitsUserById()
    ensures Match("/users/:id", "/users/admin") == MatchResult(true, Some(map["id" := "admin"]))
  {
    assert Join(["", "users", ":id"]) == "/users/:id";
    assert Join(["", "users", "admin"]) == "/users/admin";
    UserByIdAnyId("admin");
  }

  /** With overlapping patterns the dispatch is not determined: the literal
      route and the parametric route are both possible outcomes of the same
      request on the same table, so two requests may reach different
      handlers. */
  lemma OverlapAmbiguous(admin: HandlerId, byId: HandlerId)
    requires admin != byId
    ensures var req := Request("GET", "/users/admin");
            && Dispatched(admin, Context(map[], req)) in Outcomes(OverlapTable(admin, byId), req)
            && Dispatched(byId, Context(map["id" := "admin"], req)) in Outcomes(OverlapTable(admin, byId), req)
  {
    var req := Request("GET", "/users/admin");
    var t := OverlapTable(admin, byId);
    AdminFitsUserById();
    assert Routes(t, "GET") == map["/users/admin" := admin, "/users/:id" := byId];
    OverlapBothPossible(t, req, "/users/admin", "/users/:id");
  }
}
