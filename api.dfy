/** The request router of the session-backed API: the preflight short-circuit,
    the switch on the HTTP method and the per-method switch on the action. */
module Api {
  import opened PhpValues
  import opened Items
  import opened Store
  import opened Session

  /** One request: the method, ?action= ('' when absent), ?id= (Absent when
      not given) and the decoded JSON body (empty when it is not an object). */
  datatype Request = Request(verb: string, action: string, queryId: Raw, body: Payload)

  /** Which handler a request reaches. */
  datatype Handler =
    | ListAll
    | GetOne
    | Add
    | Update
    | Delete
    | Preflight
    | MethodNotAllowed
    | InvalidAction

  const KnownMethods: set<string> := {"GET", "POST", "PUT", "DELETE"}

  /** The (method, action) to handler table.  Every known method with an
      action it does not serve is an invalid action; any other method except
      OPTIONS is not allowed. */
  function Route(verb: string, action: string): (h: Handler)
    ensures h == Preflight <==> verb == "OPTIONS"
    ensures h == MethodNotAllowed <==> verb != "OPTIONS" && verb !in KnownMethods
    ensures h == ListAll <==> verb == "GET" && action == "items"
    ensures h == GetOne <==> verb == "GET" && action == "item"
    ensures h == Add <==> verb == "POST" && action == "add"
    ensures h == Update <==> verb == "PUT" && action == "update"
    ensures h == Delete <==> verb == "DELETE" && action == "delete"
    ensures h == InvalidAction <==>
      verb in KnownMethods && (verb, action) !in
        {("GET", "items"), ("GET", "item"), ("POST", "add"), ("PUT", "update"), ("DELETE", "delete")}
  {
    if verb == "OPTIONS" then Preflight
    else if verb == "GET" then
      (if action == "items" then ListAll else if action == "item" then GetOne else InvalidAction)
    else if verb == "POST" then
      (if action == "add" then Add else InvalidAction)
    else if verb == "PUT" then
      (if action == "update" then Update else InvalidAction)
    else if verb == "DELETE" then
      (if action == "delete" then Delete else InvalidAction)
    else MethodNotAllowed
  }

  /** Serves one request against the session's store. */
  method Handle(store: ItemStore, req: Request, now: string) returns (resp: Response)
    requires store.Valid()
    modifies store
    ensures store.Valid()
    ensures resp.Failure? ==> store.Snapshot() == old(store.Snapshot())
    ensures Status(resp) in {200, 400, 404, 405}
    ensures Status(resp) == 200 <==> !resp.Failure?
    ensures match Route(req.verb, req.action)
      case Preflight => resp == NoContent && store.Snapshot() == old(store.Snapshot())
      case MethodNotAllowed => resp == Failure(405, "Method not allowed")
      case InvalidAction => resp == Failure(400, "Invalid action")
      case ListAll =>
        resp == Listing(SortByName(store.items)) && ListsByName(store.items, resp.items) &&
        store.Snapshot() == old(store.Snapshot())
      case GetOne => resp == GetResponse(store.Snapshot(), req.queryId) && store.Snapshot() == old(store.Snapshot())
      case Add => Outcome(store.Snapshot(), resp) == AddOutcome(old(store.Snapshot()), req.body, now)
      case Update => Outcome(store.Snapshot(), resp) == UpdateOutcome(old(store.Snapshot()), req.body, now)
      case Delete => Outcome(store.Snapshot(), resp) == DeleteOutcome(old(store.Snapshot()), req.queryId)
  {
    match Route(req.verb, req.action)
    case Preflight =>
      resp := NoContent;
    case MethodNotAllowed =>
      resp := Failure(405, "Method not allowed");
    case InvalidAction =>
      resp := Failure(400, "Invalid action");
    case ListAll =>
      resp := store.GetAllItems();
    case GetOne =>
      resp := store.GetItem(req.queryId);
    case Add =>
      resp := store.AddItem(req.body, now);
    case Update =>
      resp := store.UpdateItem(req.body, now);
    case Delete =>
      resp := store.DeleteItem(req.queryId);
  }
}
