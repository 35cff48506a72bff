/**
 * The perimeter gate run before every matched request: pass it through, or
 * redirect it. The route tables come from a `routes` module that is not part
 * of this model and are parameters here; the login state is an input.
 */
module Proxy {
  import opened Wrappers
  import opened JsString
  import UriComponent

  /** The route configuration the gate consults. */
  datatype Routes = Routes(
    apiAuthPrefix: string,
    authRoutes: seq<string>,
    publicRoutes: seq<string>,
    defaultLoginRedirect: string)

  /** What the gate does with a request. */
  datatype Decision = Next | Redirect(location: string)

  /** The one path whose callback is never encoded from the request. */
  const LogoutPath: string := "/auth/logout"

  /** The login surface with its callback parameter, awaiting the encoded value. */
  const CallbackPrefix: string := "/auth?callbackUrl="

  /** The fixed redirect for the logout path: the callback is `/`, encoded. */
  const LogoutRedirect: string := "/auth?callbackUrl=%2F"

  /** `pathname` lies under the identity provider's callback prefix. */
  predicate IsApiAuthRoute(routes: Routes, pathname: string) {
    StartsWith(pathname, routes.apiAuthPrefix)
  }

  /** A request the gate sends to the login surface: logged out, on a path that is neither public, auth nor api-auth. */
  predicate IsGuarded(routes: Routes, pathname: string, isLoggedIn: bool) {
    !IsApiAuthRoute(routes, pathname) && pathname !in routes.authRoutes
    && !isLoggedIn && pathname !in routes.publicRoutes
  }

  /** The gate's decision for a request to `pathname` with query string `search` (`""` or starting with `?`). */
  function Gate(routes: Routes, pathname: string, search: string, isLoggedIn: bool): (d: Decision)
    // the identity provider's routes are always reachable, whatever the login state
    ensures IsApiAuthRoute(routes, pathname) ==> d == Next
    // the login surface sends logged-in callers to the default destination
    ensures !IsApiAuthRoute(routes, pathname) && pathname in routes.authRoutes ==>
      d == if isLoggedIn then Redirect(routes.defaultLoginRedirect) else Next
    // a logged-in caller is never sent to the login surface
    ensures isLoggedIn ==> d == Next || d == Redirect(routes.defaultLoginRedirect)
    // public routes are open to logged-out callers
    ensures (!IsApiAuthRoute(routes, pathname) && pathname !in routes.authRoutes
             && pathname in routes.publicRoutes) ==> d == Next
    // the logout path always gets the same callback, whatever the query string
    ensures IsGuarded(routes, pathname, isLoggedIn) && pathname == LogoutPath ==>
      d == Redirect(LogoutRedirect)
    // every other guarded path carries itself and its query string as the callback
    ensures IsGuarded(routes, pathname, isLoggedIn) && pathname != LogoutPath ==>
      d == Redirect(CallbackPrefix + UriComponent.EncodeURIComponent(pathname + search))
  {
    if IsApiAuthRoute(routes, pathname) then Next
    else if pathname in routes.authRoutes then
      if isLoggedIn then Redirect(routes.defaultLoginRedirect) else Next
    else if !isLoggedIn && pathname !in routes.publicRoutes then
      var callbackUrl := if search != "" then pathname + search else pathname;
      assert callbackUrl == pathname + search;
      var encodedCallbackUrl := UriComponent.EncodeURIComponent(callbackUrl);
      if pathname == LogoutPath then Redirect(LogoutRedirect)
      else Redirect(CallbackPrefix + encodedCallbackUrl)
    else Next
  }

  /** The gate redirects exactly logged-in callers on the login surface and guarded requests. */
  lemma RedirectIff(routes: Routes, pathname: string, search: string, isLoggedIn: bool)
    ensures Gate(routes, pathname, search, isLoggedIn).Redirect? <==>
      (!IsApiAuthRoute(routes, pathname) && pathname in routes.authRoutes && isLoggedIn)
      || IsGuarded(routes, pathname, isLoggedIn)
  {
  }

  /**
   * For a guarded path other than the logout path, the redirect's callback
   * value decodes to the requested path followed by its query string, and
   * holds no raw `&`, `=`, `?`, `#` or `/` that could end or split it.
   */
  lemma CallbackDecodes(routes: Routes, pathname: string, search: string)
    requires IsGuarded(routes, pathname, false) && pathname != LogoutPath
    ensures exists e ::
      Gate(routes, pathname, search, false) == Redirect(CallbackPrefix + e)
      && UriComponent.DecodeURIComponent(e) == Some(pathname + search)
      && forall c :: c in e ==> c != '&' && c != '=' && c != '?' && c != '#' && c != '/'
  {
    var e := UriComponent.EncodeURIComponent(pathname + search);
    UriComponent.EncodeRoundTrip(pathname + search);
    UriComponent.EncodingHasNoDelimiters(pathname + search);
    assert Gate(routes, pathname, search, false) == Redirect(CallbackPrefix + e);
  }

  /** The logout redirect's fixed callback is the encoding of `/`, the site root. */
  lemma LogoutCallbackIsRoot()
    ensures LogoutRedirect == CallbackPrefix + UriComponent.EncodeURIComponent("/")
  {
    assert UriComponent.Utf8('/') == [0x2F];
    assert UriComponent.EncodeURIComponent("/") == UriComponent.EncodeChar('/');
  }
}
