/**
 * The request a route inspects and the shape of a route (router/route.ts). URL parsing is not
 * part of this model: a request arrives with its pathname and its query parameters already split.
 */
module Routes {
  import opened ResultAlgebra
  import opened Values

  /**
   * An HTTP request: its method (`verb`), the pathname of its URL, and the first value of each query
   * parameter, as `searchParams.get` would return it.
   */
  datatype Request = Request(verb: string, pathname: string, query: map<string, string>)

  /** `Route<C, U>`: a request and the application's context to a result with a RouteError. */
  type Route<!C> = (Request, C) -> Result<Error, Value>
}
