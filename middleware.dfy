/**
 * The request gate (middleware.ts): while the maintenance flag is set, every
 * path outside a short bypass list is sent to the maintenance page; any request
 * that gets through and is not a public route must be authenticated.  Clerk's
 * route matcher is abstract: `isPublicRoute` is a parameter.
 */
module Middleware {
  import opened Wrappers

  /** `process.env.MAINTENANCE_MODE === 'true'`; `None` is an unset variable. */
  function MaintenanceMode(env: Option<string>): (on: bool)
    ensures on <==> env.Some? && env.value == "true"
  {
    env == Some("true")
  }

  /** The path prefixes that stay reachable during maintenance. */
  const Bypass: seq<string> := ["/maintenance", "/sign-in", "/sign-up", "/api/discord", "/admin"]

  const MaintenancePage := "/maintenance"

  /** `prefixes.some(p => path.startsWith(p))`, scanning the list in order. */
  function AnyPrefix(prefixes: seq<string>, path: string): (b: bool)
    ensures b <==> exists i :: 0 <= i < |prefixes| && prefixes[i] <= path
  {
    if |prefixes| == 0 then false
    else if prefixes[0] <= path then true
    else
      var b := AnyPrefix(prefixes[1..], path);
      assert b ==> exists i :: 0 <= i < |prefixes| && prefixes[i] <= path by {
        if b {
          var i :| 0 <= i < |prefixes[1..]| && prefixes[1..][i] <= path;
          assert prefixes[i + 1] == prefixes[1..][i];
        }
      }
      assert (exists i :: 0 <= i < |prefixes| && prefixes[i] <= path) ==> b by {
        if exists i :: 0 <= i < |prefixes| && prefixes[i] <= path {
          var i :| 0 <= i < |prefixes| && prefixes[i] <= path;
          assert i != 0;
          assert prefixes[1..][i - 1] == prefixes[i];
        }
      }
      b
  }

  /** What the middleware does with a request. */
  datatype Outcome = Redirect(target: string) | Protect | Proceed

  /** The middleware's decision for a request to `path`. */
  function Decide(env: Option<string>, path: string, isPublicRoute: string -> bool): (r: Outcome)
    ensures r.Redirect? <==> MaintenanceMode(env) && !AnyPrefix(Bypass, path)
    ensures r.Redirect? ==> r.target == MaintenancePage
    ensures r == Protect <==> !r.Redirect? && !isPublicRoute(path)
  {
    if MaintenanceMode(env) && !AnyPrefix(Bypass, path) then Redirect(MaintenancePage)
    else if !isPublicRoute(path) then Protect
    else Proceed
  }

  /** With maintenance off there is never a redirect. */
  lemma NoRedirectWhenOff(env: Option<string>, path: string, isPublicRoute: string -> bool)
    requires env != Some("true")
    ensures !Decide(env, path, isPublicRoute).Redirect?
  {
  }

  /**
   * With maintenance on, a request is redirected exactly when its path starts with
   * none of the bypass prefixes, and the redirect always goes to the maintenance page.
   */
  lemma RedirectExactlyOutsideBypass(env: Option<string>, path: string, isPublicRoute: string -> bool)
    requires MaintenanceMode(env)
    ensures Decide(env, path, isPublicRoute).Redirect? <==> forall i :: 0 <= i < |Bypass| ==> !(Bypass[i] <= path)
    ensures Decide(env, path, isPublicRoute).Redirect? ==> Decide(env, path, isPublicRoute).target == "/maintenance"
  {
  }

  /** The redirect target is itself a bypass path, so following a redirect never redirects again. */
  lemma RedirectNeverLoops(env: Option<string>, path: string, isPublicRoute: string -> bool)
    ensures var o := Decide(env, path, isPublicRoute);
            o.Redirect? ==> !Decide(env, o.target, isPublicRoute).Redirect?
  {
    assert Bypass[0] <= MaintenancePage;
  }

  /** Any path under a bypass prefix passes the maintenance block. */
  lemma BypassPrefixPasses(env: Option<string>, path: string, isPublicRoute: string -> bool, i: int)
    requires 0 <= i < |Bypass| && Bypass[i] <= path
    ensures !Decide(env, path, isPublicRoute).Redirect?
  {
  }

  /** The test is a raw prefix test: '/admin/settings' passes, and so does '/administrator'. */
  lemma AdminLookalikesPass(env: Option<string>, isPublicRoute: string -> bool)
    ensures !Decide(env, "/admin/settings", isPublicRoute).Redirect?
    ensures !Decide(env, "/administrator", isPublicRoute).Redirect?
  {
    assert Bypass[4] <= "/admin/settings";
    assert Bypass[4] <= "/administrator";
  }

  /** During maintenance the home page is redirected. */
  lemma HomeRedirectedDuringMaintenance(isPublicRoute: string -> bool)
    ensures Decide(Some("true"), "/", isPublicRoute) == Redirect("/maintenance")
  {
    assert forall i :: 0 <= i < |Bypass| ==> !(Bypass[i] <= "/") by {
      forall i | 0 <= i < |Bypass| ensures !(Bypass[i] <= "/") {
        assert |Bypass[i]| >= 2;
      }
    }
  }

  /** A request that is not redirected needs authentication exactly when it is not a public route. */
  lemma ProtectExactlyNonPublic(env: Option<string>, path: string, isPublicRoute: string -> bool)
    requires !Decide(env, path, isPublicRoute).Redirect?
    ensures Decide(env, path, isPublicRoute) == Protect <==> !isPublicRoute(path)
    ensures Decide(env, path, isPublicRoute) == Proceed <==> isPublicRoute(path)
  {
  }
}
