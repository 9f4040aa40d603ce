/**
 * The request path of the integration: `_make_request`'s decision on the
 * first response, and `_handle_manual_redirect`, which follows redirects one
 * hop at a time. The transport is a function from a request (method and
 * URL) to the response the server gives it with redirect following
 * disabled; `urlparse` is a function from a URL to its scheme and network
 * location.
 */
module Redirects {
  import opened Wrappers
  import opened Text
  import opened Responses

  datatype Request = Request(httpMethod: string, url: string)

  datatype UrlParts = UrlParts(scheme: string, netloc: string)

  /** The cap `_make_request` uses when the caller gives none. */
  const DefaultMaxRedirects: int := 5

  /** The statuses after which the walk follows `Location`. */
  predicate IsRedirectStatus(status: int) {
    status == 301 || status == 302 || status == 303 || status == 307 || status == 308
  }

  /** `response.headers.get("Location")` is present and non-empty. */
  predicate HasLocation(r: Response) {
    r.location.Some? && r.location.value != ""
  }

  function MissingLocationError(status: int): (e: Error) {
    ApiError("Received redirect status " + IntToDecimal(status) + " but no Location header", None)
  }

  function TooManyRedirectsError(maxRedirects: int): (e: Error) {
    ApiError("Too many redirects (max: " + IntToDecimal(maxRedirects) + ")", None)
  }

  /**
   * The next URL: a `Location` starting with `/` is put after the current
   * URL's `scheme://netloc`; any other is taken as it is.
   */
  function ResolveLocation(current: string, location: string, split: string -> UrlParts): (next: string)
    requires location != ""
    ensures location[0] != '/' ==> next == location
  {
    if location[0] == '/' then
      var parts := split(current);
      parts.scheme + "://" + parts.netloc + location
    else location
  }

  /**
   * The resolved URL always ends with the `Location` value: a relative one
   * gets the current URL's origin in front of it, an absolute one is kept
   * whole.
   */
  lemma ResolveLocationShape(current: string, location: string, split: string -> UrlParts)
    requires location != ""
    ensures var next := ResolveLocation(current, location, split);
      && |next| >= |location| && next[|next| - |location|..] == location
      && (location[0] != '/' ==> next == location)
      && (location[0] == '/' ==>
            var origin := split(current).scheme + "://" + split(current).netloc;
            |next| == |origin| + |location| && next[..|origin|] == origin)
  {
  }

  /** The method of the next hop: GET after a 303 ("See Other"), unchanged after the other redirects. */
  function NextMethod(status: int, httpMethod: string): (next: string) {
    if status == 303 then "GET" else httpMethod
  }

  /** The request that follows a redirect response to `req`. */
  function Follow(req: Request, resp: Response, split: string -> UrlParts): (next: Request)
    requires HasLocation(resp)
  {
    Request(NextMethod(resp.status, req.httpMethod), ResolveLocation(req.url, resp.location.value, split))
  }

  /** What a walk returns, and the requests it issued, in order. */
  datatype Walk = Walk(outcome: Result<string, Error>, requests: seq<Request>)

  /**
   * The walk from request `req` when `count` hops have been followed so far:
   * the specification of `_handle_manual_redirect`.
   */
  function WalkFrom(send: Request -> Response, split: string -> UrlParts, req: Request, maxRedirects: int, count: int): (w: Walk)
    decreases maxRedirects - count
  {
    if count >= maxRedirects then Walk(Failure(TooManyRedirectsError(maxRedirects)), [])
    else
      var resp := send(req);
      if !IsRedirectStatus(resp.status) then Walk(HandleResponse(resp), [req])
      else if !HasLocation(resp) then Walk(Failure(MissingLocationError(resp.status)), [req])
      else
        var rest := WalkFrom(send, split, Follow(req, resp, split), maxRedirects, count + 1);
        Walk(rest.outcome, [req] + rest.requests)
  }

  /**
   * `_handle_manual_redirect`: issues requests with redirect following
   * disabled, following redirects until a response that is not one, a
   * redirect without `Location`, or `maxRedirects` requests.
   */
  method HandleManualRedirect(send: Request -> Response, split: string -> UrlParts, httpMethod: string, url: string, maxRedirects: int)
    returns (outcome: Result<string, Error>, ghost requests: seq<Request>)
    ensures outcome == WalkFrom(send, split, Request(httpMethod, url), maxRedirects, 0).outcome
    ensures maxRedirects <= 0 ==> outcome == Failure(TooManyRedirectsError(maxRedirects))
    ensures Walk(outcome, requests) == WalkFrom(send, split, Request(httpMethod, url), maxRedirects, 0)
  {
    ghost var walk := WalkFrom(send, split, Request(httpMethod, url), maxRedirects, 0);
    var redirectCount := 0;
    var currentUrl := url;
    var currentMethod := httpMethod;
    requests := [];
    while redirectCount < maxRedirects
      invariant 0 <= redirectCount
      invariant redirectCount <= maxRedirects || redirectCount == 0
      invariant var rest := WalkFrom(send, split, Request(currentMethod, currentUrl), maxRedirects, redirectCount);
        walk == Walk(rest.outcome, requests + rest.requests)
      decreases maxRedirects - redirectCount
    {
      var current := Request(currentMethod, currentUrl);
      var response := send(current);
      requests := requests + [current];
      if IsRedirectStatus(response.status) {
        redirectCount := redirectCount + 1;
        var nextUrl := response.location;
        if nextUrl.None? || nextUrl.value == "" {
          outcome := Failure(MissingLocationError(response.status));
          return;
        }
        currentUrl := ResolveLocation(currentUrl, nextUrl.value, split);
        if response.status == 303 {
          currentMethod := "GET";
        }
        continue;
      }
      outcome := HandleResponse(response);
      return;
    }
    outcome := Failure(TooManyRedirectsError(maxRedirects));
  }

  /**
   * `_make_request` on the default transport, given `first`, the response
   * to the request issued with automatic redirect following: 200 is
   * classified, a redirect status that survived automatic following starts
   * the manual walk from the original request, anything else is classified.
   * The test for 200 adds nothing: a 200 is not a redirect status, and is
   * classified like every other response that is not one.
   */
  function MakeRequest(first: Response, send: Request -> Response, split: string -> UrlParts,
                       httpMethod: string, url: string, maxRedirects: int): (r: Result<string, Error>)
    ensures !IsRedirectStatus(first.status) ==> r == HandleResponse(first)
    ensures IsRedirectStatus(first.status) ==> r == WalkFrom(send, split, Request(httpMethod, url), maxRedirects, 0).outcome
    ensures IsRedirectStatus(first.status) && maxRedirects <= 0 ==> r == Failure(TooManyRedirectsError(maxRedirects))
    ensures IsCleanSuccess(first) ==> r == Success(first.body)
  {
    if first.status == 200 then HandleResponse(first)
    else if IsRedirectStatus(first.status) then WalkFrom(send, split, Request(httpMethod, url), maxRedirects, 0).outcome
    else HandleResponse(first)
  }

  // ------------------------------------------------------------- properties

  /**
   * The hop cap: a walk issues at most `maxRedirects - count` requests, at
   * least one when any is allowed, and none (failing with the cap error)
   * when the cap is already reached.
   */
  lemma {:induction false} WalkLength(send: Request -> Response, split: string -> UrlParts, req: Request, maxRedirects: int, count: int)
    ensures var w := WalkFrom(send, split, req, maxRedirects, count);
      && (count >= maxRedirects ==> w.requests == [] && w.outcome == Failure(TooManyRedirectsError(maxRedirects)))
      && (count < maxRedirects ==> 1 <= |w.requests| <= maxRedirects - count && w.requests[0] == req)
    decreases maxRedirects - count
  {
    if count < maxRedirects {
      var resp := send(req);
      if IsRedirectStatus(resp.status) && HasLocation(resp) {
        WalkLength(send, split, Follow(req, resp, split), maxRedirects, count + 1);
      }
    }
  }

  /**
   * Each request after the first follows from the response to the one
   * before it: that response was a redirect with a `Location`, and the next
   * request is its resolved target with the method rule applied.
   */
  lemma {:induction false} WalkChain(send: Request -> Response, split: string -> UrlParts, req: Request, maxRedirects: int, count: int)
    ensures var w := WalkFrom(send, split, req, maxRedirects, count);
      forall k :: 0 <= k < |w.requests| - 1 ==>
        && IsRedirectStatus(send(w.requests[k]).status)
        && HasLocation(send(w.requests[k]))
        && w.requests[k + 1] == Follow(w.requests[k], send(w.requests[k]), split)
    decreases maxRedirects - count
  {
    var w := WalkFrom(send, split, req, maxRedirects, count);
    if count < maxRedirects {
      var resp := send(req);
      if IsRedirectStatus(resp.status) && HasLocation(resp) {
        var next := Follow(req, resp, split);
        var rest := WalkFrom(send, split, next, maxRedirects, count + 1);
        WalkChain(send, split, next, maxRedirects, count + 1);
        WalkLength(send, split, next, maxRedirects, count + 1);
        assert w.requests == [req] + rest.requests;
        forall k | 0 <= k < |w.requests| - 1
          ensures IsRedirectStatus(send(w.requests[k]).status)
          ensures HasLocation(send(w.requests[k]))
          ensures w.requests[k + 1] == Follow(w.requests[k], send(w.requests[k]), split)
        {
          if k > 0 {
            assert w.requests[k] == rest.requests[k - 1];
            assert w.requests[k + 1] == rest.requests[k];
          }
        }
      }
    }
  }

  /**
   * How a walk ends, read off its last request's response: a response that
   * is not a redirect is classified and returned; a redirect without
   * `Location` is an API error; a redirect with one means the cap was hit.
   */
  lemma {:induction false} WalkEnd(send: Request -> Response, split: string -> UrlParts, req: Request, maxRedirects: int, count: int)
    requires count < maxRedirects
    ensures var w := WalkFrom(send, split, req, maxRedirects, count);
      var last := send(w.requests[|w.requests| - 1]);
      && |w.requests| >= 1
      && (!IsRedirectStatus(last.status) ==> w.outcome == HandleResponse(last))
      && (IsRedirectStatus(last.status) && !HasLocation(last) ==> w.outcome == Failure(MissingLocationError(last.status)))
      && (IsRedirectStatus(last.status) && HasLocation(last) ==>
            |w.requests| == maxRedirects - count && w.outcome == Failure(TooManyRedirectsError(maxRedirects)))
    decreases maxRedirects - count
  {
    var w := WalkFrom(send, split, req, maxRedirects, count);
    WalkLength(send, split, req, maxRedirects, count);
    var resp := send(req);
    if IsRedirectStatus(resp.status) && HasLocation(resp) {
      var next := Follow(req, resp, split);
      var rest := WalkFrom(send, split, next, maxRedirects, count + 1);
      assert w.requests == [req] + rest.requests && w.outcome == rest.outcome;
      if count + 1 < maxRedirects {
        WalkEnd(send, split, next, maxRedirects, count + 1);
        assert w.requests[|w.requests| - 1] == rest.requests[|rest.requests| - 1];
      } else {
        assert w.requests == [req];
      }
    } else {
      assert w.requests == [req];
    }
  }

  /**
   * The 303 rule: once a hop answers 303, every later request is a GET.
   */
  lemma {:induction false} SeeOtherStaysGet(send: Request -> Response, split: string -> UrlParts, req: Request, maxRedirects: int, k: nat, l: nat)
    requires var w := WalkFrom(send, split, req, maxRedirects, 0);
      k < l < |w.requests| && send(w.requests[k]).status == 303
    ensures WalkFrom(send, split, req, maxRedirects, 0).requests[l].httpMethod == "GET"
    decreases l
  {
    var w := WalkFrom(send, split, req, maxRedirects, 0);
    WalkChain(send, split, req, maxRedirects, 0);
    if l > k + 1 {
      SeeOtherStaysGet(send, split, req, maxRedirects, k, l - 1);
    }
    assert w.requests[l] == Follow(w.requests[l - 1], send(w.requests[l - 1]), split);
  }

  /**
   * The other redirects keep the method: while no hop has answered 303, each
   * request uses the method of the original one.
   */
  lemma {:induction false} MethodKeptWithoutSeeOther(send: Request -> Response, split: string -> UrlParts, req: Request, maxRedirects: int, l: nat)
    requires var w := WalkFrom(send, split, req, maxRedirects, 0);
      l < |w.requests| && forall k :: 0 <= k < l ==> send(w.requests[k]).status != 303
    ensures WalkFrom(send, split, req, maxRedirects, 0).requests[l].httpMethod == req.httpMethod
    decreases l
  {
    var w := WalkFrom(send, split, req, maxRedirects, 0);
    WalkLength(send, split, req, maxRedirects, 0);
    if l > 0 {
      WalkChain(send, split, req, maxRedirects, 0);
      MethodKeptWithoutSeeOther(send, split, req, maxRedirects, l - 1);
      assert w.requests[l] == Follow(w.requests[l - 1], send(w.requests[l - 1]), split);
    }
  }

  /** A response that yields its body: successful, not a redirect, not a login page. */
  ghost predicate IsCleanSuccess(r: Response) {
    r.status < 400 && !IsRedirectStatus(r.status) && !ShowsLoginPage(r.body)
  }

  /** A walk that returns a body returns the body of a clean success it received, the last one. */
  lemma WalkSuccess(send: Request -> Response, split: string -> UrlParts, req: Request, maxRedirects: int)
    requires WalkFrom(send, split, req, maxRedirects, 0).outcome.Success?
    ensures var w := WalkFrom(send, split, req, maxRedirects, 0);
      var last := send(w.requests[|w.requests| - 1]);
      |w.requests| >= 1 && IsCleanSuccess(last) && w.outcome.value == last.body
  {
    WalkLength(send, split, req, maxRedirects, 0);
    WalkEnd(send, split, req, maxRedirects, 0);
  }

  /**
   * Whatever body `_make_request` returns is the body of a clean success:
   * the first response, or a response received during the manual walk. A
   * redirect's own body is never returned.
   */
  lemma MakeRequestReturnsCleanBody(first: Response, send: Request -> Response, split: string -> UrlParts,
                                    httpMethod: string, url: string, maxRedirects: int)
    requires MakeRequest(first, send, split, httpMethod, url, maxRedirects).Success?
    ensures var body := MakeRequest(first, send, split, httpMethod, url, maxRedirects).value;
      || (IsCleanSuccess(first) && body == first.body)
      || (IsRedirectStatus(first.status) &&
          var w := WalkFrom(send, split, Request(httpMethod, url), maxRedirects, 0);
          exists k :: 0 <= k < |w.requests| && IsCleanSuccess(send(w.requests[k])) && body == send(w.requests[k]).body)
  {
    if IsRedirectStatus(first.status) {
      WalkSuccess(send, split, Request(httpMethod, url), maxRedirects);
      var w := WalkFrom(send, split, Request(httpMethod, url), maxRedirects, 0);
      var k := |w.requests| - 1;
      assert IsCleanSuccess(send(w.requests[k]));
    }
  }

  /**
   * A server that answers every request with a redirect that has a
   * `Location` exhausts the cap: exactly `maxRedirects` requests, then the
   * cap error naming the cap.
   */
  lemma AllRedirectsHitCap(send: Request -> Response, split: string -> UrlParts, req: Request, maxRedirects: int)
    requires maxRedirects > 0
    requires forall r :: IsRedirectStatus(send(r).status) && HasLocation(send(r))
    ensures var w := WalkFrom(send, split, req, maxRedirects, 0);
      |w.requests| == maxRedirects && w.outcome == Failure(TooManyRedirectsError(maxRedirects))
  {
    WalkEnd(send, split, req, maxRedirects, 0);
  }

  /** With the default cap the error reads "Too many redirects (max: 5)". */
  lemma DefaultCapMessage()
    ensures TooManyRedirectsError(DefaultMaxRedirects) == ApiError("Too many redirects (max: 5)", None)
  {
  }

  /** The URL splitter for the portal's own URLs in the scenario below. */
  function PortalSplit(u: string): UrlParts {
    UrlParts("https", "brightree.net")
  }

  /** A server where `/a` redirects to `/b`, `/b` to `/c`, and everything else is a page. */
  function ChainServer(r: Request): Response {
    if r.url == "https://brightree.net/a" then Response(302, "Found", Some("/b"), "", "")
    else if r.url == "https://brightree.net/b" then Response(302, "Found", Some("/c"), "", "")
    else Response(200, "OK", None, "", "saved")
  }

  /** The two hops of the scenario: each relative `Location` is resolved against the portal's origin. */
  lemma ChainHops()
    ensures Follow(Request("POST", "https://brightree.net/a"), ChainServer(Request("POST", "https://brightree.net/a")), PortalSplit)
         == Request("POST", "https://brightree.net/b")
    ensures Follow(Request("POST", "https://brightree.net/b"), ChainServer(Request("POST", "https://brightree.net/b")), PortalSplit)
         == Request("POST", "https://brightree.net/c")
  {
    assert "https" + "://" + "brightree.net" + "/b" == "https://brightree.net/b";
    assert "https" + "://" + "brightree.net" + "/c" == "https://brightree.net/c";
  }

  /** The page at the end of the scenario is a clean success, returned as its body. */
  lemma SavedPageReturned()
    ensures HandleResponse(Response(200, "OK", None, "", "saved")) == Success("saved")
  {
    IsLoginPageIff("saved");
  }

  /**
   * 302, 302, 200: the walk issues exactly three requests, resolving each
   * relative `Location` against the portal's origin, and returns the final
   * body.
   */
  lemma TwoRedirectsThenPage()
    ensures var w := WalkFrom(ChainServer, PortalSplit, Request("POST", "https://brightree.net/a"), DefaultMaxRedirects, 0);
      && w.requests == [Request("POST", "https://brightree.net/a"),
                        Request("POST", "https://brightree.net/b"),
                        Request("POST", "https://brightree.net/c")]
      && w.outcome == Success("saved")
  {
    var a := Request("POST", "https://brightree.net/a");
    var b := Request("POST", "https://brightree.net/b");
    var c := Request("POST", "https://brightree.net/c");
    ChainHops();
    SavedPageReturned();
    assert ChainServer(c) == Response(200, "OK", None, "", "saved");
    var wc := WalkFrom(ChainServer, PortalSplit, c, DefaultMaxRedirects, 2);
    assert wc == Walk(Success("saved"), [c]);
    var wb := WalkFrom(ChainServer, PortalSplit, b, DefaultMaxRedirects, 1);
    assert wb == Walk(Success("saved"), [b, c]);
  }
}
