/** Route registration on the enclave's router: `AddRoute` maps the nine
    standard method names to the router's per-verb registration and drops
    every other method string. The router itself is the ordered list of
    registrations; a later registration of the same verb and pattern
    replaces an earlier one. */
module Router {
  import opened Common

  datatype Verb = Get | Head | Post | Put | Patch | Delete | Connect | Options | Trace

  /** The `http.Method*` constant for each verb. */
  function MethodName(v: Verb): string {
    match v
    case Get => "GET"
    case Head => "HEAD"
    case Post => "POST"
    case Put => "PUT"
    case Patch => "PATCH"
    case Delete => "DELETE"
    case Connect => "CONNECT"
    case Options => "OPTIONS"
    case Trace => "TRACE"
  }

  /** The `switch method` of `AddRoute`: an exact, case-sensitive match. */
  function ParseMethod(m: string): Option<Verb> {
    if m == "GET" then Some(Get)
    else if m == "HEAD" then Some(Head)
    else if m == "POST" then Some(Post)
    else if m == "PUT" then Some(Put)
    else if m == "PATCH" then Some(Patch)
    else if m == "DELETE" then Some(Delete)
    else if m == "CONNECT" then Some(Connect)
    else if m == "OPTIONS" then Some(Options)
    else if m == "TRACE" then Some(Trace)
    else None
  }

  /** How the attestation handler knows the certificate hash: a copy taken
      when the handler was built, or a read of the enclave's current value on
      every request. */
  datatype Binding = Captured(certHash: Digest) | Live

  /** The handlers the model distinguishes: the attestation endpoint and
      application handlers added by the library's user. */
  datatype Handler = AttestationHandler(binding: Binding) | AppHandler(id: nat)

  datatype Route = Route(verb: Verb, pattern: string, handler: Handler)

  /** `e.router.Get(pattern, h)` and its siblings. */
  function Register(routes: seq<Route>, v: Verb, pattern: string, h: Handler): (r: seq<Route>)
    ensures Lookup(r, v, pattern) == Some(h)
    ensures forall w, p :: (w, p) != (v, pattern) ==> Lookup(r, w, p) == Lookup(routes, w, p)
  {
    routes + [Route(v, pattern, h)]
  }

  /** The handler the router serves for a verb and pattern: the most recent
      registration. */
  function Lookup(routes: seq<Route>, v: Verb, pattern: string): Option<Handler>
    decreases |routes|
  {
    if |routes| == 0 then None
    else
      var last := routes[|routes| - 1];
      if last.verb == v && last.pattern == pattern then Some(last.handler)
      else Lookup(routes[..|routes| - 1], v, pattern)
  }

  /** `e.AddRoute(method, pattern, handlerFn)`. */
  function AddRoute(routes: seq<Route>, httpMethod: string, pattern: string, h: Handler): (r: seq<Route>)
    ensures ParseMethod(httpMethod).None? ==> r == routes
    ensures ParseMethod(httpMethod).Some? ==> r == Register(routes, ParseMethod(httpMethod).value, pattern, h)
  {
    match ParseMethod(httpMethod)
    case Some(v) => Register(routes, v, pattern, h)
    case None => routes
  }

  /** The switch recognises exactly the nine method names, each as its own
      verb. */
  lemma ParseMethodExact(m: string, v: Verb)
    ensures ParseMethod(m) == Some(v) <==> MethodName(v) == m
  {
  }

  /** A route is added exactly when the method is one of the nine names, and
      it is then served under that name's verb. */
  lemma AddRouteEffect(routes: seq<Route>, httpMethod: string, pattern: string, h: Handler)
    ensures (AddRoute(routes, httpMethod, pattern, h) != routes) <==> exists v :: MethodName(v) == httpMethod
    ensures forall v :: MethodName(v) == httpMethod ==> Lookup(AddRoute(routes, httpMethod, pattern, h), v, pattern) == Some(h)
  {
    if ParseMethod(httpMethod).Some? {
      var v := ParseMethod(httpMethod).value;
      ParseMethodExact(httpMethod, v);
      assert |AddRoute(routes, httpMethod, pattern, h)| == |routes| + 1;
    } else {
      forall v ensures MethodName(v) != httpMethod {
        ParseMethodExact(httpMethod, v);
      }
    }
  }

  /** Method names are case-sensitive: lower-case "get" is ignored. */
  lemma LowerCaseMethodIgnored(routes: seq<Route>, pattern: string, h: Handler)
    ensures AddRoute(routes, "get", pattern, h) == routes
  {
  }
}
