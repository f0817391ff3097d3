/**
  The HTTP interceptor's decision: which request is handed on, and whether it
  carries a bearer token. The token source is an input: it is the value the
  token lookup resolves to (`None` for null/undefined), consulted only for
  requests to the API.
 */
module AuthInterceptor {
  import opened Common
  import opened Json

  const AuthorizationHeader := "Authorization"
  const BearerPrefix := "Bearer "

  datatype Request = Request(url: string, body: JsValue, headers: map<string, string>)

  /** The requests handed to `next` (in order) and whether the token was asked for. */
  datatype Interception = Interception(forwarded: seq<Request>, tokenRequested: bool)

  /** `s.startsWith(prefix)`. */
  predicate StartsWith(s: string, prefix: string) {
    |prefix| <= |s| && s[..|prefix|] == prefix
  }

  /** A token is used when it is truthy: present and not empty. */
  predicate UsableToken(token: Option<string>) {
    token.Some? && token.value != ""
  }

  /** `req.clone({ setHeaders: { Authorization: `Bearer ${token}` } })`. */
  function WithBearer(req: Request, token: string): (r: Request)
    ensures r.url == req.url && r.body == req.body
    ensures AuthorizationHeader in r.headers && r.headers[AuthorizationHeader] == BearerPrefix + token
    ensures forall h :: h in req.headers && h != AuthorizationHeader ==> h in r.headers && r.headers[h] == req.headers[h]
    ensures r.headers.Keys == req.headers.Keys + {AuthorizationHeader}
  {
    req.(headers := req.headers[AuthorizationHeader := BearerPrefix + token])
  }

  /** `authInterceptor(req, next)`. */
  function Intercept(req: Request, baseUrl: string, token: Option<string>): (r: Interception)
    ensures |r.forwarded| == 1
    ensures r.tokenRequested <==> StartsWith(req.url, baseUrl)
    ensures !(StartsWith(req.url, baseUrl) && UsableToken(token)) ==> r.forwarded[0] == req
    ensures StartsWith(req.url, baseUrl) && UsableToken(token) ==>
              && r.forwarded[0].url == req.url && r.forwarded[0].body == req.body
              && AuthorizationHeader in r.forwarded[0].headers
              && r.forwarded[0].headers[AuthorizationHeader] == BearerPrefix + token.value
              && (forall h :: h in req.headers && h != AuthorizationHeader ==>
                   h in r.forwarded[0].headers && r.forwarded[0].headers[h] == req.headers[h])
              && r.forwarded[0].headers.Keys == req.headers.Keys + {AuthorizationHeader}
  {
    if !StartsWith(req.url, baseUrl) then Interception([req], false)
    else if UsableToken(token) then Interception([WithBearer(req, token.value)], true)
    else Interception([req], true)
  }

  /** The request was changed on its way through. */
  predicate Decorated(req: Request, baseUrl: string, token: Option<string>) {
    Intercept(req, baseUrl, token).forwarded[0] != req
  }

  /**
    Decoration depends only on the prefix test and the token: a request is
    changed exactly when its URL starts with the base URL, a usable token
    exists, and it does not already carry that very header value.
   */
  lemma DecoratedIff(req: Request, baseUrl: string, token: Option<string>)
    ensures Decorated(req, baseUrl, token) <==>
            && StartsWith(req.url, baseUrl)
            && UsableToken(token)
            && !(AuthorizationHeader in req.headers && req.headers[AuthorizationHeader] == BearerPrefix + token.value)
  {
  }

  /** Two requests with the same URL get the same treatment, whatever their body and headers. */
  lemma DecisionIgnoresBodyAndHeaders(a: Request, b: Request, baseUrl: string, token: Option<string>)
    requires a.url == b.url
    ensures Intercept(a, baseUrl, token).tokenRequested == Intercept(b, baseUrl, token).tokenRequested
    ensures Decorated(a, baseUrl, token) && AuthorizationHeader !in b.headers ==> Decorated(b, baseUrl, token)
  {
  }

  /**
    The test is a plain string prefix, not a URL comparison: with base URL
    `https://api.example.com/dev`, a request to `https://api.example.com/devices`
    also gets the token.
   */
  lemma PrefixTestIsTextual(body: JsValue)
    ensures var req := Request("https://api.example.com/devices", body, map[]);
            Intercept(req, "https://api.example.com/dev", Some("t")).forwarded[0].headers ==
            map[AuthorizationHeader := "Bearer t"]
  {
    var req := Request("https://api.example.com/devices", body, map[]);
    var base := "https://api.example.com/dev";
    assert |base| == 27;
    assert req.url[..27] == base;
    assert StartsWith(req.url, base);
    assert UsableToken(Some("t"));
    assert BearerPrefix + "t" == "Bearer t";
  }

  /** An empty base URL is a prefix of every URL, so every request is intercepted. */
  lemma EmptyBaseInterceptsAll(req: Request, token: Option<string>)
    ensures Intercept(req, "", token).tokenRequested
  {
  }
}
