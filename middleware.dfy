/** The client's route guard: from the `token` and `role` cookies and the
    requested path it either lets the request through or redirects it to
    the sign-in page. A missing cookie and an empty one are both `null`,
    written here as the empty string. */
module Middleware {

  datatype Verdict = Next | Redirect(location: string)

  /** `pathname.startsWith(prefix)`. */
  predicate StartsWith(path: string, prefix: string)
  {
    |prefix| <= |path| && path[..|prefix|] == prefix
  }

  /** The areas and pages the guard knows about. */
  predicate AdminArea(path: string) { StartsWith(path, "/admin") }
  predicate UserArea(path: string) { StartsWith(path, "/user") }
  predicate AuthPage(path: string) { StartsWith(path, "/signin") || StartsWith(path, "/signup") }

  /** `middleware`: a token with role ADMIN opens the admin area, a token
      with role USER opens the user area, the sign-in and sign-up pages are
      always open, and everything else is sent to `/signin`. */
  function Guard(token: string, role: string, path: string): (v: Verdict)
    ensures v.Redirect? ==> v.location == "/signin"
    ensures AuthPage(path) ==> v == Next
  {
    if token != "" && role == "ADMIN" && AdminArea(path) then Next
    else if token != "" && role == "USER" && UserArea(path) then Next
    else if AuthPage(path) then Next
    else Redirect("/signin")
  }

  /** The admin area and the user area share no path, and neither shares
      one with the sign-in and sign-up pages: their prefixes differ at the
      second character. */
  lemma {:induction false} AreasDisjoint(path: string)
    ensures AdminArea(path) ==> !UserArea(path) && !AuthPage(path)
    ensures UserArea(path) ==> !AdminArea(path) && !AuthPage(path)
  {
    if AdminArea(path) {
      assert path[1] == path[..6][1] == 'a';
    }
    if UserArea(path) {
      assert path[1] == path[..5][1] == 'u';
    }
  }

  /** With a token, an ADMIN reaches every admin path and a USER every user path. */
  lemma AreasOpenToTheirRole(token: string, path: string)
    requires token != ""
    ensures AdminArea(path) ==> Guard(token, "ADMIN", path) == Next
    ensures UserArea(path) ==> Guard(token, "USER", path) == Next
  {
  }

  /** The admin area is closed to everyone but an ADMIN with a token, and
      the user area to everyone but a USER with a token; both are
      redirected to `/signin`. */
  lemma {:induction false} AreasClosedToOthers(token: string, role: string, path: string)
    ensures AdminArea(path) ==>
      (Guard(token, role, path) == Next <==> token != "" && role == "ADMIN")
    ensures UserArea(path) ==>
      (Guard(token, role, path) == Next <==> token != "" && role == "USER")
  {
    AreasDisjoint(path);
  }

  /** Without a token only the sign-in and sign-up pages are reachable. */
  lemma NoTokenOnlyAuthPages(role: string, path: string)
    ensures Guard("", role, path) == Next <==> AuthPage(path)
  {
  }

  /** The token's value does not matter, only whether there is one. */
  lemma OnlyTokenPresenceMatters(t1: string, t2: string, role: string, path: string)
    requires (t1 == "") == (t2 == "")
    ensures Guard(t1, role, path) == Guard(t2, role, path)
  {
  }
}
