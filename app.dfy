/**
 * The dispatch of app.ts: an application holds an ordered list of (route, handler) entries and
 * answers a request with the handler of the first entry whose route accepts it.
 */
module Application {
  import opened MaybeAlgebra
  import opened ResultAlgebra
  import opened Values
  import opened Routes

  /** The part of an HTTP response the dispatch decides: its status and its body. */
  datatype Response = Response(status: int, body: string)

  /** The answer when no entry matches: status 404 and `{"message":"NOT FOUND"}`. */
  const NotFound := Response(404, "{\"message\":\"NOT FOUND\"}")

  /** `Handler<C, T>`: the context, the route's value and the request to a response. */
  type Handler<!C> = (C, Value, Request) -> Response

  /** `Entry<C, T>`. */
  datatype Entry<!C> = Entry(route: Route<C>, handler: Handler<C>)

  /**
   * The entry `handle` dispatches to: the first one whose route accepts the request, if any;
   * every entry before it rejects the request.
   */
  function FirstMatch<C>(entries: seq<Entry<C>>, ctx: C, req: Request): (m: Maybe<nat>)
    ensures m.None? <==> forall j :: 0 <= j < |entries| ==> entries[j].route(req, ctx).Err?
    ensures m.Some? ==> (m.value < |entries| && entries[m.value].route(req, ctx).Ok? &&
      forall j :: 0 <= j < m.value ==> entries[j].route(req, ctx).Err?)
    decreases |entries|
  {
    if |entries| == 0 then None
    else if entries[0].route(req, ctx).Ok? then Some(0)
    else
      var rest := FirstMatch(entries[1..], ctx, req);
      assert forall j :: 1 <= j < |entries| ==> entries[j] == entries[1..][j - 1];
      MaybeAlgebra.Map((i: nat) => i + 1, rest)
  }

  /** The response `handle` gives: the first matching entry's handler applied to its route's value, or not-found. */
  function Respond<C>(entries: seq<Entry<C>>, ctx: C, req: Request): Response {
    match FirstMatch(entries, ctx, req)
    case Some(i) => entries[i].handler(ctx, entries[i].route(req, ctx).value, req)
    case None => NotFound
  }

  /** How many routes `handle` evaluates: up to and including the first match, or all of them. */
  function Evaluated<C>(entries: seq<Entry<C>>, ctx: C, req: Request): (n: nat)
    ensures n <= |entries|
  {
    match FirstMatch(entries, ctx, req)
    case Some(i) => i + 1
    case None => |entries|
  }

  /** `App<C>`: a fixed context and the registered entries. */
  class App<C> {
    const context: C
    var entries: seq<Entry<C>>

    /** A new application has no entries. */
    constructor(context: C)
      ensures this.context == context && entries == []
    {
      this.context := context;
      entries := [];
    }

    /** `route(route, handler)`: registers one more entry, after all the others. */
    method Route(route: Routes.Route<C>, handler: Handler<C>)
      modifies this
      ensures entries == old(entries) + [Entry(route, handler)]
    {
      entries := entries + [Entry(route, handler)];
    }

    /**
     * `handle(request)`: tries the entries in registration order and answers with the handler of
     * the first one whose route accepts the request, or with not-found. `invoked` names the one
     * handler called, and `evaluated` counts the routes evaluated.
     */
    method Handle(request: Request) returns (response: Response, invoked: Maybe<nat>, evaluated: nat)
      ensures invoked == FirstMatch(entries, context, request)
      ensures response == Respond(entries, context, request)
      ensures evaluated == Evaluated(entries, context, request)
    {
      for i := 0 to |entries|
        invariant forall j :: 0 <= j < i ==> entries[j].route(request, context).Err?
      {
        var entry := entries[i];
        var result := entry.route(request, context);
        if result.Ok? {
          response := entry.handler(context, result.value, request);
          invoked := Some(i);
          evaluated := i + 1;
          return;
        }
      }
      response := NotFound;
      invoked := None;
      evaluated := |entries|;
    }
  }

  /** Registering an entry does not change the answer to a request an earlier entry already matches. */
  lemma AppendKeepsEarlierMatch<C>(entries: seq<Entry<C>>, e: Entry<C>, ctx: C, req: Request)
    requires FirstMatch(entries, ctx, req).Some?
    ensures FirstMatch(entries + [e], ctx, req) == FirstMatch(entries, ctx, req)
    ensures Respond(entries + [e], ctx, req) == Respond(entries, ctx, req)
  {
    var all := entries + [e];
    var i := FirstMatch(entries, ctx, req).value;
    assert forall j :: 0 <= j < |entries| ==> all[j] == entries[j];
    assert all[i].route(req, ctx).Ok?;
  }

  /** When no entry matches, a new last entry decides the answer on its own. */
  lemma AppendAfterNoMatch<C>(entries: seq<Entry<C>>, e: Entry<C>, ctx: C, req: Request)
    requires FirstMatch(entries, ctx, req).None?
    ensures FirstMatch(entries + [e], ctx, req) == if e.route(req, ctx).Ok? then Some(|entries|) else None
    ensures Respond(entries + [e], ctx, req) ==
      if e.route(req, ctx).Ok? then e.handler(ctx, e.route(req, ctx).value, req) else NotFound
  {
    var all := entries + [e];
    assert forall j :: 0 <= j < |entries| ==> all[j] == entries[j];
    assert all[|entries|] == e;
  }

  /** An application with no entries answers every request with not-found. */
  lemma NoEntriesNotFound<C>(ctx: C, req: Request)
    ensures Respond([], ctx, req) == NotFound
    ensures NotFound.status == 404
  {
  }
}
