/**
  Two pieces of internal/http/router.go: the default CORS origin list,
  and `FileServer`'s route registration. Registration is described by the
  routes it adds, in order, or by the panic that aborts it.
 */
module Router {
  import Text

  /** The origin allowed when the configuration lists none. */
  const DevOrigin: string := "http://localhost:5173"

  /** The origins `NewRouter` hands to CORS: the configured ones, or the dev server alone. */
  function AllowedOrigins(configured: seq<string>): (r: seq<string>)
    ensures |r| >= 1
    ensures |configured| > 0 ==> r == configured
    ensures configured == [] ==> r == [DevOrigin]
  {
    if |configured| == 0 then [DevOrigin] else configured
  }

  /**
    An origin is allowed exactly when it is configured, or when nothing is
    configured and it is the dev server; defaulting a second time changes
    nothing.
   */
  lemma AllowedOriginsAdmits(configured: seq<string>)
    ensures forall o :: o in AllowedOrigins(configured) <==> o in configured || (configured == [] && o == DevOrigin)
    ensures AllowedOrigins(AllowedOrigins(configured)) == AllowedOrigins(configured)
  {
  }

  /** What a registered GET route does. */
  datatype Handler =
    | Redirect(location: string, code: int)
    | ServeFiles(stripPrefix: string)

  datatype Route = Route(pattern: string, handler: Handler)

  datatype Registration = Panicked(reason: string) | Registered(routes: seq<Route>)

  const MovedPermanently: int := 301

  /** The characters of a chi URL parameter or wildcard. */
  const RouteMeta: string := "{}*"

  const ParamPanic: string := "FileServer não permite parâmetros de URL"

  /** `path[len(path)-1]` on the empty string. */
  const IndexPanic: string := "index out of range"

  /** chi's refusal, when a route is added, of a pattern that does not begin with '/'. */
  function RoutePanic(pattern: string): string {
    "chi: routing pattern must begin with '/' in '" + pattern + "'"
  }

  /** A pattern chi accepts: it begins with '/'. */
  predicate RoutablePattern(pattern: string) {
    |pattern| > 0 && pattern[0] == '/'
  }

  /**
    `FileServer`: a path with a parameter or wildcard character panics;
    otherwise a path without a trailing slash gets a 301 redirect to the
    slashed form, and the files are served under the slashed form plus
    `*`, with the original path stripped from the request. The empty
    path reaches the last-character test and panics there, and a path
    that does not begin with '/' makes chi panic at the first route it
    adds: the redirect's, or the files route when there is no redirect.
   */
  function FileServer(path: string): (r: Registration)
    ensures Text.ContainsAny(path, RouteMeta) ==> r == Panicked(ParamPanic)
    ensures !Text.ContainsAny(path, RouteMeta) && path == "" ==> r == Panicked(IndexPanic)
    ensures !Text.ContainsAny(path, RouteMeta) && path != "" && path[0] != '/' ==>
              r == Panicked(RoutePanic(if path[|path| - 1] == '/' then path + "*" else path))
    ensures r.Registered? <==> !Text.ContainsAny(path, RouteMeta) && RoutablePattern(path)
    ensures r.Registered? ==> |r.routes| >= 1 && r.routes[|r.routes| - 1].handler == ServeFiles(path)
    ensures r.Registered? ==> forall i :: 0 <= i < |r.routes| ==> RoutablePattern(r.routes[i].pattern)
  {
    if Text.ContainsAny(path, RouteMeta) then Panicked(ParamPanic)
    else if path == "" then Panicked(IndexPanic)
    else if path != "/" && path[|path| - 1] != '/' then
      if path[0] != '/' then Panicked(RoutePanic(path))
      else Registered([Route(path, Redirect(path + "/", MovedPermanently)), Route(path + "/*", ServeFiles(path))])
    else if path[0] != '/' then Panicked(RoutePanic(path + "*"))
    else Registered([Route(path + "*", ServeFiles(path))])
  }

  /** The pattern the files are served under, once registration succeeds. */
  function FilesPattern(r: Registration): string
    requires r.Registered? && |r.routes| >= 1
  {
    r.routes[|r.routes| - 1].pattern
  }

  /**
    Normalisation: a registered path yields a files pattern that is the
    path with exactly one trailing slash added if it lacked one, then the
    single wildcard `*`; the redirect exists exactly when a slash was
    added, and it points at the slashed path. Root is served as itself
    plus the wildcard, with no redirect.
   */
  lemma FileServerNormalises(path: string)
    requires !Text.ContainsAny(path, RouteMeta) && RoutablePattern(path)
    ensures FileServer(path).Registered?
    ensures var r := FileServer(path);
            var slashed := if path[|path| - 1] == '/' then path else path + "/";
            FilesPattern(r) == slashed + "*"
            && (|r.routes| == 2 <==> path[|path| - 1] != '/')
            && (|r.routes| == 2 ==> r.routes[0] == Route(path, Redirect(slashed, MovedPermanently)))
            && |r.routes| <= 2
    ensures FileServer("/") == Registered([Route("/*", ServeFiles("/"))])
    ensures forall i :: 0 <= i < |FilesPattern(FileServer(path))| - 1 ==> FilesPattern(FileServer(path))[i] != '*'
  {
    assert !Text.ContainsAny("/", RouteMeta) by {
      forall i | 0 <= i < |"/"| ensures "/"[i] !in RouteMeta {
        assert "/"[i] == '/';
      }
    }
    assert "/" + "*" == "/*";
    var p := FilesPattern(FileServer(path));
    forall i | 0 <= i < |p| - 1
      ensures p[i] != '*'
    {
      if i < |path| {
        assert p[i] == path[i];
        assert !(path[i] in RouteMeta);
      }
    }
  }

  /** A path and its slashed form serve the same pattern; only the bare form adds a redirect. */
  lemma SlashedFormSamePattern(path: string)
    requires !Text.ContainsAny(path, RouteMeta) && RoutablePattern(path) && path[|path| - 1] != '/'
    ensures !Text.ContainsAny(path + "/", RouteMeta)
    ensures FilesPattern(FileServer(path)) == FilesPattern(FileServer(path + "/"))
    ensures |FileServer(path + "/").routes| == 1
  {
    assert forall i :: 0 <= i < |path| ==> (path + "/")[i] == path[i];
  }

  /**
    The one call `NewRouter` makes: "/uploads" registers the redirect to
    "/uploads/" and serves the files under that slashed form plus the
    wildcard.
   */
  lemma UploadsRoutes()
    ensures FileServer("/uploads")
         == Registered([Route("/uploads", Redirect("/uploads/", MovedPermanently)), Route("/uploads/*", ServeFiles("/uploads"))])
  {
    assert !Text.ContainsAny("/uploads", RouteMeta) by {
      forall i | 0 <= i < |"/uploads"| ensures "/uploads"[i] !in RouteMeta {
        assert "/uploads"[i] in "/uploads";
      }
    }
    assert "/uploads" + "/" == "/uploads/";
    assert "/uploads" + "/*" == "/uploads/*";
  }
}
