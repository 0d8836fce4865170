/** The method routes of router/method.ts. */
module MethodRoutes {
  import opened MaybeAlgebra
  import opened ResultAlgebra
  import opened Values
  import opened Routes

  /** `httpMethod(method)`: accepts exactly the requests made with that method. */
  function HttpMethod<C>(m: string): Route<C> {
    (req: Request, ctx: C) =>
      if req.verb == m then Ok(Bool(true))
      else Err(Error("request should use " + m + ", but it use " + req.verb, None))
  }

  /**
   * `httpMethod(m)` succeeds with `true` iff the request's method is `m`, compared as exact
   * strings; otherwise it names both methods in its error.
   */
  lemma HttpMethodOutcome<C>(m: string, req: Request, ctx: C)
    ensures HttpMethod(m)(req, ctx).Ok? <==> req.verb == m
    ensures HttpMethod(m)(req, ctx).Ok? ==> HttpMethod(m)(req, ctx).value == Bool(true)
    ensures HttpMethod(m)(req, ctx).Err? ==>
      HttpMethod(m)(req, ctx).error == Error("request should use " + m + ", but it use " + req.verb, None)
  {
  }

  /** The outcome depends on the request's method alone: neither the context nor the rest of the request is read. */
  lemma HttpMethodReadsOnlyMethod<C>(m: string, req1: Request, req2: Request, ctx1: C, ctx2: C)
    requires req1.verb == req2.verb
    ensures HttpMethod(m)(req1, ctx1) == HttpMethod(m)(req2, ctx2)
  {
  }

  /** The comparison is case sensitive: a request made with "get" does not match `GET`. */
  lemma HttpMethodIsCaseSensitive<C>(req: Request, ctx: C)
    requires req.verb == "get"
    ensures HttpMethod("GET")(req, ctx).Err?
  {
    assert req.verb[0] != "GET"[0];
  }

  /** The predefined method routes. */
  datatype Verb = OPTIONS | HEAD | GET | POST | PUT | PATCH | DELETE | TRACE {
    /** The method name each one compares against. */
    function Name(): (s: string)
      ensures |s| > 0 && forall i :: 0 <= i < |s| ==> 'A' <= s[i] <= 'Z'
    {
      match this
      case OPTIONS => "OPTIONS"
      case HEAD => "HEAD"
      case GET => "GET"
      case POST => "POST"
      case PUT => "PUT"
      case PATCH => "PATCH"
      case DELETE => "DELETE"
      case TRACE => "TRACE"
    }
  }

  /** `GET`, `POST`, ...: `httpMethod` of their own name. */
  function Predefined<C>(v: Verb): Route<C> {
    HttpMethod(v.Name())
  }

  /** Different predefined routes compare against different names, so at most one of them accepts a request. */
  lemma PredefinedAreExclusive<C>(v: Verb, w: Verb, req: Request, ctx: C)
    requires Predefined(v)(req, ctx).Ok? && Predefined(w)(req, ctx).Ok?
    ensures v == w
  {
    assert v.Name() == w.Name();
  }
}

/** The two cases of router/method_test.ts, stated about the model. */
module MethodExamples {
  import opened ResultAlgebra
  import opened Values
  import opened Routes
  import opened MethodRoutes

  /** `httpMethod("GET")` accepts a GET request with `true`. */
  lemma GetAcceptsGet<C>(req: Request, ctx: C)
    requires req.verb == "GET"
    ensures HttpMethod("GET")(req, ctx) == Ok(Bool(true))
  {
  }

  /** `httpMethod("POST")` rejects a GET request, naming both methods. */
  lemma PostRejectsGet<C>(req: Request, ctx: C)
    requires req.verb == "GET"
    ensures HttpMethod("POST")(req, ctx).error.message == "request should use POST, but it use GET"
  {
    assert "request should use " + "POST" + ", but it use " + "GET" == "request should use POST, but it use GET";
  }
}
