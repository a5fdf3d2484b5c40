/** The request-level string handling of `src/http.rs`: reading the bearer
    token, choosing a content type from a file name, and routing a request
    path to a handler, a redirect or a file. */
module Http {
  import opened Common

  // ---------------------------------------------------------------- the bearer token

  /** `get_auth_token`: `header` is the `Authorization` header as text, or
      `None` when it is absent or not visible ASCII. The header is split at
      every single space; it must fall into exactly two parts, and the
      second is the token (possibly empty). */
  function GetAuthToken(header: Option<string>): (token: Option<string>)
  {
    if header.None? then None
    else
      var parts := Split(header.value, ' ');
      if |parts| != 2 then None else Some(parts[1])
  }

  /** A token is found exactly when the header holds exactly one space; it
      is then everything after that space. */
  lemma GetAuthTokenMeaning(header: string)
    ensures GetAuthToken(Some(header)).Some? <==> Count(header, ' ') == 1
    ensures GetAuthToken(Some(header)).Some? ==>
            exists scheme :: ' ' !in scheme && header == scheme + " " + GetAuthToken(Some(header)).value
    ensures GetAuthToken(Some(header)).Some? ==> ' ' !in GetAuthToken(Some(header)).value
  {
    SplitParts(header, ' ');
    var parts := Split(header, ' ');
    if |parts| == 2 {
      var i := IndexOf(header, ' ');
      assert i < |header|;
      assert parts == [header[..i]] + Split(header[i + 1..], ' ');
      SplitParts(header[i + 1..], ' ');
      assert Split(header[i + 1..], ' ') == [header[i + 1..]];
      assert header == header[..i] + " " + header[i + 1..];
      assert ' ' !in parts[0];
    }
  }

  /** `Bearer <token>` and every other one-word scheme followed by a
      space-free token give the token back. */
  lemma GetAuthTokenRoundTrip(scheme: string, token: string)
    requires ' ' !in scheme && ' ' !in token
    ensures GetAuthToken(Some(scheme + " " + token)) == Some(token)
  {
    assert Join([scheme, token], " ") == scheme + " " + token;
    SplitJoin([scheme, token], ' ');
  }

  /** A missing header, or one without a scheme, carries no token. */
  lemma NoTokenWithoutSpace(header: Option<string>)
    requires header.None? || ' ' !in header.value
    ensures GetAuthToken(header).None?
  {
    if header.Some? {
      SplitNoSeparator(header.value, ' ');
    }
  }

  // ---------------------------------------------------------------- content types

  /** `guess_content_type`: the first matching suffix decides. */
  function GuessContentType(filename: string): (t: string)
  {
    if EndsWith(filename, ".css") then "text/css; charset=utf-8"
    else if EndsWith(filename, ".js") then "text/javascript; charset=utf-8"
    else if EndsWith(filename, ".html") then "text/html; charset=utf-8"
    else if EndsWith(filename, ".png") then "image/png"
    else if EndsWith(filename, ".jpeg") then "image/jpeg"
    else if EndsWith(filename, ".gif") then "image/gif"
    else "text/plain"
  }

  /** The last two characters of a name with a given suffix. */
  lemma LastTwo(filename: string, suffix: string)
    requires EndsWith(filename, suffix) && |suffix| >= 2
    ensures filename[|filename| - 1] == suffix[|suffix| - 1] && filename[|filename| - 2] == suffix[|suffix| - 2]
  {
    var tail := filename[|filename| - |suffix|..];
    assert tail[|suffix| - 1] == filename[|filename| - 1];
    assert tail[|suffix| - 2] == filename[|filename| - 2];
  }

  /** No recognised suffix ends another, so the order of the checks never
      matters: a name gets the type of the suffix it ends with. */
  lemma SuffixDecides(filename: string)
    ensures EndsWith(filename, ".css") ==> GuessContentType(filename) == "text/css; charset=utf-8"
    ensures EndsWith(filename, ".js") ==> GuessContentType(filename) == "text/javascript; charset=utf-8"
    ensures EndsWith(filename, ".html") ==> GuessContentType(filename) == "text/html; charset=utf-8"
    ensures EndsWith(filename, ".png") ==> GuessContentType(filename) == "image/png"
    ensures EndsWith(filename, ".jpeg") ==> GuessContentType(filename) == "image/jpeg"
    ensures EndsWith(filename, ".gif") ==> GuessContentType(filename) == "image/gif"
  {
    if EndsWith(filename, ".css") { LastTwo(filename, ".css"); }
    if EndsWith(filename, ".js") { LastTwo(filename, ".js"); }
    if EndsWith(filename, ".html") { LastTwo(filename, ".html"); }
    if EndsWith(filename, ".png") { LastTwo(filename, ".png"); }
    if EndsWith(filename, ".jpeg") { LastTwo(filename, ".jpeg"); }
    if EndsWith(filename, ".gif") { LastTwo(filename, ".gif"); }
  }

  /** A name with none of the recognised suffixes is plain text, and only
      such a name is. */
  lemma PlainTextFallback(filename: string)
    ensures GuessContentType(filename) == "text/plain" <==>
            !EndsWith(filename, ".css") && !EndsWith(filename, ".js") && !EndsWith(filename, ".html")
            && !EndsWith(filename, ".png") && !EndsWith(filename, ".jpeg") && !EndsWith(filename, ".gif")
  {
  }

  // ---------------------------------------------------------------- routing

  /** The handlers `handle_request` dispatches to. */
  datatype Handler = ApiHandler | AuthHandler | MetaHandler | FeedbackHandler | StatusHandler

  /** Where a request goes: a handler, a redirect, or a file to serve. */
  datatype Target = ToHandler(handler: Handler) | Redirect(location: string) | ServeFile(name: string)

  const DOC_SITE: string := "./doc/site/"
  const UI_DIST: string := "./ui/dist"

  /** The documentation file for the part of a `/doc/` path after the
      prefix: a directory stands for its `index.html`. */
  function DocFile(rest: string): (name: string)
  {
    if EndsWith(rest, "/") || rest == "" then DOC_SITE + rest + "index.html" else DOC_SITE + rest
  }

  /** The handler a path is dispatched to, if any. */
  function HandlerFor(path: string): (h: Option<Handler>)
  {
    if StartsWith(path, "/a/") then Some(ApiHandler)
    else if StartsWith(path, "/auth/") then Some(AuthHandler)
    else if StartsWith(path, "/meta/") then Some(MetaHandler)
    else if StartsWith(path, "/feedback/") then Some(FeedbackHandler)
    else if path == "/status" then Some(StatusHandler)
    else None
  }

  /** `handle_request` without the handlers themselves: `uiFileExists`
      says whether `./ui/dist<path>` is a regular file. */
  function Route(path: string, uiFileExists: bool): (t: Target)
  {
    match HandlerFor(path)
    case Some(h) => ToHandler(h)
    case None =>
      if path == "/doc" then Redirect("/doc/")
      else if StartsWith(path, "/doc/") then ServeFile(DocFile(path[5..]))
      else if uiFileExists then ServeFile(UI_DIST + path)
      else ServeFile(UI_DIST + "/index.html")
  }

  /** What the client gets back. */
  datatype Response = Response(status: nat, body: string)

  /** A handler's error becomes a 500 reply; its response passes through. */
  function Finish(r: Result<Response>): (resp: Response)
    ensures r.Err? ==> resp == Response(500, "internal error")
    ensures r.Ok? ==> resp == r.value
  {
    if r.Ok? then r.value else Response(500, "internal error")
  }

  /** The first characters of a path with a given prefix. */
  lemma Leading(path: string, prefix: string)
    requires StartsWith(path, prefix) && |prefix| >= 3
    ensures path[1] == prefix[1] && path[2] == prefix[2]
  {
    assert path[..|prefix|][1] == path[1] && path[..|prefix|][2] == path[2];
  }

  /** The routing prefixes are mutually exclusive, so each handler is
      chosen by its own prefix whatever the order of the checks. */
  lemma HandlerPrefixes(path: string)
    ensures HandlerFor(path) == Some(ApiHandler) <==> StartsWith(path, "/a/")
    ensures HandlerFor(path) == Some(AuthHandler) <==> StartsWith(path, "/auth/")
    ensures HandlerFor(path) == Some(MetaHandler) <==> StartsWith(path, "/meta/")
    ensures HandlerFor(path) == Some(FeedbackHandler) <==> StartsWith(path, "/feedback/")
    ensures HandlerFor(path) == Some(StatusHandler) <==> path == "/status"
  {
    if StartsWith(path, "/a/") { Leading(path, "/a/"); }
    if StartsWith(path, "/auth/") { Leading(path, "/auth/"); }
    if StartsWith(path, "/meta/") { Leading(path, "/meta/"); }
    if StartsWith(path, "/feedback/") { Leading(path, "/feedback/"); }
    if path == "/status" { Leading(path, "/status"); }
  }

  /** No handler prefix has `d` as its second character. */
  lemma NoHandlerAfterD(path: string)
    requires |path| >= 2 && path[1] == 'd'
    ensures HandlerFor(path).None?
  {
    if StartsWith(path, "/a/") { Leading(path, "/a/"); }
    if StartsWith(path, "/auth/") { Leading(path, "/auth/"); }
    if StartsWith(path, "/meta/") { Leading(path, "/meta/"); }
    if StartsWith(path, "/feedback/") { Leading(path, "/feedback/"); }
  }

  /** The two halves of a concatenation. */
  lemma Halves(a: string, b: string)
    ensures (a + b)[..|a|] == a && (a + b)[|a|..] == b
  {
  }

  /** Documentation pages are served from the documentation site: a
      directory path gets its `index.html`, any other path is kept, and the
      file name gives the requested path back. */
  lemma DocRoute(rest: string, uiFileExists: bool)
    ensures Route("/doc/" + rest, uiFileExists).ServeFile?
    ensures var name := Route("/doc/" + rest, uiFileExists).name;
            && StartsWith(name, DOC_SITE)
            && (EndsWith(rest, "/") || rest == "" ==> name[|DOC_SITE|..] == rest + "index.html")
            && (!EndsWith(rest, "/") && rest != "" ==> name[|DOC_SITE|..] == rest)
  {
    var path := "/doc/" + rest;
    assert path[1] == 'd';
    NoHandlerAfterD(path);
    Halves("/doc/", rest);
    assert Route(path, uiFileExists) == ServeFile(DocFile(rest));
    if EndsWith(rest, "/") || rest == "" {
      assert DocFile(rest) == DOC_SITE + (rest + "index.html");
      Halves(DOC_SITE, rest + "index.html");
    } else {
      Halves(DOC_SITE, rest);
    }
  }

  /** `/doc` itself is redirected to the documentation's root. */
  lemma DocRedirect(uiFileExists: bool)
    ensures Route("/doc", uiFileExists) == Redirect("/doc/")
  {
    assert "/doc"[1] == 'd';
    NoHandlerAfterD("/doc");
  }

  /** A path no handler takes and outside the documentation is a file of
      the built user interface, or the interface's entry page. */
  lemma UiFallback(path: string, uiFileExists: bool)
    requires HandlerFor(path).None? && path != "/doc" && !StartsWith(path, "/doc/")
    ensures Route(path, uiFileExists) == ServeFile(if uiFileExists then UI_DIST + path else "./ui/dist/index.html")
  {
  }
}
