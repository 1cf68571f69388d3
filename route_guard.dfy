/** The request guard of proxy.ts: redirects decided by string-prefix
    matching of the path and by whether a session exists. */
module RouteGuard {
  import opened Text

  const PublicRoutes: seq<string> := ["/login", "/register"]
  const ProtectedRoutes: seq<string> := ["/admin", "/dashboard", "/profile"]

  /** `routes.some(route => path.startsWith(route))` */
  predicate AnyPrefix(path: string, routes: seq<string>) {
    if routes == [] then false else StartsWith(path, routes[0]) || AnyPrefix(path, routes[1..])
  }

  lemma {:induction false} AnyPrefixIff(path: string, routes: seq<string>)
    ensures AnyPrefix(path, routes) <==> exists i :: 0 <= i < |routes| && StartsWith(path, routes[i])
  {
    if routes != [] {
      AnyPrefixIff(path, routes[1..]);
      if AnyPrefix(path, routes[1..]) {
        var i :| 0 <= i < |routes[1..]| && StartsWith(path, routes[1..][i]);
        assert routes[i + 1] == routes[1..][i];
      }
      forall i | 1 <= i < |routes| && StartsWith(path, routes[i]) ensures AnyPrefix(path, routes[1..]) {
        assert routes[1..][i - 1] == routes[i];
      }
    }
  }

  function IsPublicRoute(path: string): (r: bool)
    ensures r <==> StartsWith(path, "/login") || StartsWith(path, "/register")
  {
    AnyPrefixIff(path, PublicRoutes);
    AnyPrefix(path, PublicRoutes)
  }

  function IsProtectedRoute(path: string): (r: bool)
    ensures r <==> StartsWith(path, "/admin") || StartsWith(path, "/dashboard") || StartsWith(path, "/profile")
  {
    AnyPrefixIff(path, ProtectedRoutes);
    assert ProtectedRoutes[0] == "/admin" && ProtectedRoutes[1] == "/dashboard" && ProtectedRoutes[2] == "/profile";
    AnyPrefix(path, ProtectedRoutes)
  }

  datatype Decision = Next | Redirect(location: string)

  /** `proxy`: without a session protected paths go to the login page; with
      one, public paths go to the dashboard; everything else passes. */
  function Proxy(path: string, hasSession: bool): (d: Decision)
    ensures !hasSession ==> (d == if IsProtectedRoute(path) then Redirect("/login") else Next)
    ensures hasSession ==> (d == if IsPublicRoute(path) then Redirect("/dashboard") else Next)
    ensures hasSession ==> d != Redirect("/login")
    ensures !hasSession ==> d != Redirect("/dashboard")
  {
    if !hasSession then
      if IsProtectedRoute(path) then Redirect("/login") else Next
    else if IsPublicRoute(path) then Redirect("/dashboard")
    else Next
  }

  /** Matching is by prefix, not by path segment. */
  lemma PrefixMatchingExamples()
    ensures IsProtectedRoute("/administrator")
    ensures IsPublicRoute("/register-instructor")
    ensures Proxy("/register-instructor", true) == Redirect("/dashboard")
    ensures Proxy("/administrator", false) == Redirect("/login")
    ensures Proxy("/admin/deshabilitar-cancha", true) == Next
    ensures Proxy("/customer", false) == Next
  {
    assert "/administrator"[..6] == "/admin";
    assert "/register-instructor"[..9] == "/register";
    assert "/admin/deshabilitar-cancha"[..6] == "/admin";
    assert "/customer"[1] == 'c';
  }

  /** A protected path under a session passes (it is never also public, as
      no public prefix is a prefix of a protected one or the reverse). */
  lemma ProtectedPassesWithSession(path: string)
    requires IsProtectedRoute(path)
    ensures Proxy(path, true) == Next
  {
    assert |path| >= 6 && path[1] in {'a', 'd', 'p'} by {
      if StartsWith(path, "/admin") {
        assert path[1] == "/admin"[1];
      } else if StartsWith(path, "/dashboard") {
        assert path[1] == "/dashboard"[1];
      } else {
        assert path[1] == "/profile"[1];
      }
    }
    assert !StartsWith(path, "/login") by {
      assert "/login"[1] == 'l';
    }
    assert !StartsWith(path, "/register") by {
      assert "/register"[1] == 'r';
    }
  }
}
