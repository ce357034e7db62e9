/** The `withCORS` wrapper (mock-server/main.go:199-219): which CORS response
    headers every answer carries. The allowed origins are the list read from
    the environment at start-up. */
module Cors {

  const AllowOrigin: string := "Access-Control-Allow-Origin"
  const AllowMethods: string := "Access-Control-Allow-Methods"
  const AllowHeaders: string := "Access-Control-Allow-Headers"
  const AllowCredentials: string := "Access-Control-Allow-Credentials"

  const MethodsValue: string := "GET, POST, PUT, DELETE, OPTIONS"
  const HeadersValue: string := "Content-Type, Authorization"

  /** An entry of the allow-list lets `origin` in: it is that origin or `*`. */
  predicate Admits(entry: string, origin: string) {
    entry == origin || entry == "*"
  }

  /** The headers that are set whatever the origin. */
  function FixedHeaders(): map<string, string> {
    map[AllowMethods := MethodsValue, AllowHeaders := HeadersValue, AllowCredentials := "true"]
  }

  /** The CORS headers of a response to a request whose Origin header is
      `origin` (empty when absent). */
  function CorsHeaders(allowed: seq<string>, origin: string): map<string, string> {
    if exists j | 0 <= j < |allowed| :: Admits(allowed[j], origin)
    then FixedHeaders()[AllowOrigin := origin]
    else FixedHeaders()
  }

  /** The wrapper's loop: scans the allow-list, sets the origin header on the
      first entry that admits the origin and stops there. */
  method ApplyCors(allowed: seq<string>, origin: string) returns (headers: map<string, string>)
    ensures headers == CorsHeaders(allowed, origin)
    ensures AllowOrigin in headers <==> exists j :: 0 <= j < |allowed| && Admits(allowed[j], origin)
    ensures AllowOrigin in headers ==> headers[AllowOrigin] == origin
    ensures headers[AllowMethods] == MethodsValue && headers[AllowHeaders] == HeadersValue
    ensures headers[AllowCredentials] == "true"
  {
    headers := map[];
    var i := 0;
    while i < |allowed|
      invariant i <= |allowed|
      invariant headers == map[]
      invariant forall j :: 0 <= j < i ==> !Admits(allowed[j], origin)
    {
      if allowed[i] == origin || allowed[i] == "*" {
        headers := headers[AllowOrigin := origin];
        break;
      }
      i := i + 1;
    }
    headers := headers[AllowMethods := MethodsValue];
    headers := headers[AllowHeaders := HeadersValue];
    headers := headers[AllowCredentials := "true"];
  }
}
