// The request handlers (include/request.hpp) over the shared url table: guarded
// first-match routing, storing a posted url under a fresh token, redirecting.
module Shortener {
  import opened Text
  import ParseQs
  import Multipart
  import Generate
  import Path

  // ---- Requests, replies, environment ---------------------------------------------

  datatype Verb = Get | Head | Post | Other(name: string)

  datatype Request = Request(
    verb: Verb, target: string, version: nat, keepAlive: bool, contentType: string, body: string)

  datatype Reply =
    | BadRequest(why: string)
    | NotFound(target: string)
    | ServerError(what: string)
    | Redirect(location: string)
    | HeadFile(mime: string, size: nat)
    | GetFile(mime: string, content: string)
    | Page(html: string)

  /** `needEof`: the connection has to be closed after this response. */
  datatype Response = Response(reply: Reply, needEof: bool)

  /** What a response has after its header section; a HEAD answer's size is in its
      header section only. */
  function Content(reply: Reply): string {
    match reply
    case BadRequest(why) => why
    case NotFound(target) => "The resource '" + target + "' was not found."
    case ServerError(what) => "An error occurred: '" + what + "'"
    case Redirect(_) => ""
    case HeadFile(_, _) => ""
    case GetFile(_, content) => content
    case Page(html) => html
  }

  datatype Config = Config(docRoot: string, hostname: string, mime: Path.MimeTypeMap, words: seq<string>)

  datatype PageData = PageData(hostname: string, url: Option<string>, token: Option<string>)

  datatype FileOutcome = Missing | FileError(what: string) | Opened(content: string)

  datatype RenderOutcome = Rendered(html: string) | RenderError(what: string)

  /** Everything outside the program that one request may meet: the file system, the
      template engine, what SQLite returns, the random stream and the multipart
      parser's callbacks. */
  datatype Env = Env(
    files: string -> FileOutcome,
    render: (string, PageData) -> RenderOutcome,
    prepareOk: bool, bindTokenOk: bool, bindUrlOk: bool, stepOk: bool, error: string,
    stream: Generate.Stream,
    parser: (string, string) -> seq<Multipart.Callback>)

  /** Token to url. */
  type Table = map<string, string>

  /** The table afterwards and the response; None when an exception escapes. */
  datatype Outcome = Outcome(table: Table, response: Option<Response>)

  const MAX_PARAMS := 1000
  const FALLBACK := "https://" + ("www.youtube.com" + ("/watch?v=" + ("dQw4w9WgXcQ" + "?autoplay=1")))

  /** Every response repeats the request's keep-alive choice, except the redirect,
      which has the default of its HTTP version. */
  function Respond(req: Request, reply: Reply): Response {
    Response(reply, if reply.Redirect? then req.version < 11 else !req.keepAlive)
  }

  // ---- The table --------------------------------------------------------------------

  /** One INSERT: both columns are NOT NULL and UNIQUE, and any other failure may
      come from outside. None when the statement is not done. */
  function Insert(table: Table, token: Option<string>, url: Option<string>, stepOk: bool): Option<Table> {
    if token.None? || url.None? || !stepOk then None
    else if token.value in table || url.value in table.Values then None
    else Some(table[token.value := url.value])
  }

  function Bound(ok: bool, s: string): Option<string> {
    if ok then Some(CStr(s)) else None
  }

  predicate HttpPrefix(url: string) {
    StartsWith(url, "http://") || StartsWith(url, "https://")
  }

  // ---- Finding the posted url ---------------------------------------------------------

  datatype Posted = Found(url: string) | Rejected(why: string) | Thrown

  function TrimRight(s: string): string {
    if s != "" && Multipart.IsSpace(s[|s| - 1]) then TrimRight(s[..|s| - 1]) else s
  }

  /** The field a section belongs to, when its headers name one. */
  function FieldName(s: Multipart.Section): Option<string> {
    if "Content-Disposition" !in s.headers then None
    else
      match s.headers["Content-Disposition"]
      case Bare(_) => None
      case Parameterized(params) => if "name" in params then params["name"] else None
  }

  function FirstUrl(ss: seq<Multipart.Section>): string {
    if ss == [] then ""
    else if FieldName(ss[0]) == Some("url") then ss[0].data
    else FirstUrl(ss[1..])
  }

  function UrlEncodedUrl(body: string): Posted {
    match ParseQs.Parsed(body, MAX_PARAMS)
    case None => Thrown
    case Some(qsm) => if "url" in qsm then Found(qsm["url"]) else Rejected("No URL parameter passed")
  }

  function MultipartUrl(contentType: string, body: string, env: Env): Posted {
    var params := Multipart.HeaderParams(contentType);
    var boundary := if "boundary" in params then params["boundary"].GetOr("") else "";
    if boundary == "" then Rejected("Bad request")
    else
      var trace := env.parser(CStr(boundary), TrimRight(body));
      var url := FirstUrl(Multipart.FeedAll(Multipart.EMPTY, trace).sections);
      if url == "" then Rejected("No URL specified") else Found(url)
  }

  function PostedUrl(req: Request, env: Env): Posted {
    if req.contentType == "application/x-www-form-urlencoded" then UrlEncodedUrl(req.body)
    else if StartsWith(req.contentType, "multipart/form-data") then MultipartUrl(req.contentType, req.body, env)
    else Rejected("Bad content type " + req.contentType)
  }

  // ---- Handlers -------------------------------------------------------------------------

  function TemplatePath(cfg: Config, req: Request): string {
    var path := Path.Joined(cfg.docRoot, req.target);
    if EndsWith(req.target, "/") then path + "index.html" else path
  }

  function RenderReply(env: Env, path: string, data: PageData): Reply {
    match env.render(path, data)
    case Rendered(html) => Page(html)
    case RenderError(what) => BadRequest("Could not serve page: " + what)
  }

  function HandleFile(cfg: Config, req: Request, env: Env): Reply {
    var path := Path.Joined(cfg.docRoot, req.target);
    if req.verb != Get && req.verb != Head then BadRequest("Unknown HTTP-method")
    else
      var mime := Path.Lookup(cfg.mime, CStr(Path.Basename(path)));
      match env.files(CStr(path))
      case Missing => NotFound(req.target)
      case FileError(what) => ServerError(what)
      case Opened(content) => if req.verb == Head then HeadFile(mime, |content|) else GetFile(mime, content)
  }

  /** Storing the url and rendering the page that shows its token. */
  function StoreAndShow(cfg: Config, table: Table, req: Request, env: Env, url: string): (Table, Reply)
    requires Generate.ValidWords(cfg.words)
  {
    var token := Generate.Token(cfg.words, env.stream);
    if !env.prepareOk then (table, ServerError("SQL error: " + env.error))
    else
      match Insert(table, Bound(env.bindTokenOk, token), Bound(env.bindUrlOk, url), env.stepOk)
      case None => (table, ServerError("SQL error: " + env.error))
      case Some(table') =>
        (table', RenderReply(env, TemplatePath(cfg, req), PageData(cfg.hostname, Some(url), Some(token))))
  }

  function HandlePost(cfg: Config, table: Table, req: Request, env: Env): Outcome
    requires Generate.ValidWords(cfg.words)
  {
    if req.verb != Post then Outcome(table, Some(Respond(req, BadRequest("Unknown HTTP-method"))))
    else
      match PostedUrl(req, env)
      case Thrown => Outcome(table, None)
      case Rejected(why) => Outcome(table, Some(Respond(req, BadRequest(why))))
      case Found(url) =>
        if !HttpPrefix(url) then Outcome(table, Some(Respond(req, BadRequest("Invalid URL"))))
        else
          var (table', reply) := StoreAndShow(cfg, table, req, env, url);
          Outcome(table', Some(Respond(req, reply)))
  }

  function HandleGetTemplate(cfg: Config, req: Request, env: Env): Reply {
    if req.verb != Get then BadRequest("Unknown HTTP-method")
    else RenderReply(env, TemplatePath(cfg, req), PageData(cfg.hostname, None, None))
  }

  function HandleGetUrl(table: Table, req: Request, env: Env): Reply
    requires req.target != ""
  {
    if req.verb != Get then BadRequest("Unknown HTTP-method")
    else if !env.prepareOk then ServerError("SQL error: " + env.error)
    else if !env.bindTokenOk then ServerError("SQL error:" + env.error)
    else
      var token := CStr(req.target[1..]);
      if env.stepOk && token in table then Redirect(CStr(table[token])) else Redirect(FALLBACK)
  }

  // ---- Routing ------------------------------------------------------------------------------

  datatype Route = AssetRoute | PostRoute | RootRoute | TemplateRoute | UrlRoute

  /** What `.*` matches: anything on one line. */
  predicate OneLine(s: string) {
    '\n' !in s && '\r' !in s
  }

  predicate Matches(r: Route, t: string) {
    match r
    case AssetRoute =>
      || (StartsWith(t, "/assets/") && OneLine(t[8..]))
      || t == "/favicon.ico" || t == "/robots.txt"
    case PostRoute => t == "/post.html"
    case RootRoute => t == "/"
    case TemplateRoute =>
      t == "/" || (|t| >= 6 && t[0] == '/' && EndsWith(t, ".html") && OneLine(t[1..|t| - 5]))
    case UrlRoute => |t| >= 2 && t[0] == '/' && '/' !in t[1..]
  }

  const ROUTES := [AssetRoute, PostRoute, RootRoute, TemplateRoute, UrlRoute]

  predicate GuardAccepts(target: string) {
    target != "" && target[0] == '/' && !Path.HasDotDot(target)
  }

  function FirstMatch(rs: seq<Route>, t: string): Option<Route> {
    if rs == [] then None else if Matches(rs[0], t) then Some(rs[0]) else FirstMatch(rs[1..], t)
  }

  function Dispatch(cfg: Config, table: Table, req: Request, env: Env, r: Route): Outcome
    requires Generate.ValidWords(cfg.words) && req.target != ""
  {
    match r
    case AssetRoute => Outcome(table, Some(Respond(req, HandleFile(cfg, req, env))))
    case PostRoute => HandlePost(cfg, table, req, env)
    case RootRoute => Outcome(table, Some(Respond(req, HandleGetTemplate(cfg, req, env))))
    case TemplateRoute => Outcome(table, Some(Respond(req, HandleGetTemplate(cfg, req, env))))
    case UrlRoute => Outcome(table, Some(Respond(req, HandleGetUrl(table, req, env))))
  }

  /** What one request does. */
  function Handle(cfg: Config, table: Table, req: Request, env: Env): Outcome
    requires Generate.ValidWords(cfg.words)
  {
    if !GuardAccepts(req.target) then
      Outcome(table, Some(Respond(req, BadRequest("Illegal request-target"))))
    else
      match FirstMatch(ROUTES, req.target)
      case None => Outcome(table, Some(Respond(req, NotFound(req.target))))
      case Some(r) => Dispatch(cfg, table, req, env, r)
  }

  // ---- The handlers as the server runs them ----------------------------------------------------

  class Server {
    const cfg: Config
    var urls: Table

    constructor (cfg: Config, urls: Table)
      ensures this.cfg == cfg && this.urls == urls
    {
      this.cfg := cfg;
      this.urls := urls;
    }

    method ServeFile(req: Request, env: Env) returns (reply: Reply)
      ensures reply == HandleFile(cfg, req, env)
    {
      var path := Path.PathCat(cfg.docRoot, req.target);
      if req.verb != Get && req.verb != Head {
        return BadRequest("Unknown HTTP-method");
      }
      match env.files(CStr(path)) {
        case Missing => return NotFound(req.target);
        case FileError(what) => return ServerError(what);
        case Opened(content) =>
          var mime := Path.GetMimeType(cfg.mime, path);
          reply := if req.verb == Head then HeadFile(mime, |content|) else GetFile(mime, content);
      }
    }

    method MultipartPost(req: Request, env: Env) returns (r: Posted)
      ensures r == MultipartUrl(req.contentType, req.body, env)
    {
      var hv := Multipart.ParseHeaderValue(req.contentType);
      if hv.Bare? {
        return Rejected("Bad request");
      }
      if "boundary" !in hv.params || hv.params["boundary"].None? {
        return Rejected("Bad request");
      }
      var boundary := hv.params["boundary"].value;
      if boundary == "" {
        return Rejected("Bad request");
      }
      var mpd := new Multipart.MultiPartData(boundary);
      mpd.Ingest(env.parser(CStr(boundary), TrimRight(req.body)));
      var formData := mpd.data;
      var url := "";
      ghost var found := false;
      for n := 0 to |formData|
        invariant !found && url == "" && FirstUrl(formData) == FirstUrl(formData[n..])
      {
        var elem := formData[n];
        assert formData[n..][1..] == formData[n + 1..];
        if "Content-Disposition" !in elem.headers || elem.headers["Content-Disposition"].Bare? {
          continue;
        }
        var cd := elem.headers["Content-Disposition"].params;
        if "name" !in cd || cd["name"].None? {
          continue;
        }
        if cd["name"].value == "url" {
          url := elem.data;
          found := true;
          break;
        }
      }
      if url == "" {
        return Rejected("No URL specified");
      }
      r := Found(url);
    }

    method UrlEncodedPost(req: Request) returns (r: Posted)
      ensures r == UrlEncodedUrl(req.body)
    {
      var qsm := ParseQs.ParseQsl(req.body, MAX_PARAMS);
      if qsm.None? {
        return Thrown;
      }
      if "url" !in qsm.value {
        return Rejected("No URL parameter passed");
      }
      r := Found(qsm.value["url"]);
    }

    method PostUrl(req: Request, env: Env) returns (r: Option<Response>)
      requires Generate.ValidWords(cfg.words)
      modifies this
      ensures Outcome(urls, r) == HandlePost(cfg, old(urls), req, env)
    {
      hide UrlEncodedUrl, MultipartUrl, Generate.Token, Path.Joined, Insert, CStr, RenderReply;
      if req.verb != Post {
        return Some(Respond(req, BadRequest("Unknown HTTP-method")));
      }
      var path := Path.PathCat(cfg.docRoot, req.target);
      if EndsWith(req.target, "/") {
        path := path + "index.html";
      }
      var posted: Posted;
      if req.contentType == "application/x-www-form-urlencoded" {
        posted := UrlEncodedPost(req);
      } else if StartsWith(req.contentType, "multipart/form-data") {
        posted := MultipartPost(req, env);
      } else {
        posted := Rejected("Bad content type " + req.contentType);
      }
      match posted {
        case Thrown => return None;
        case Rejected(why) => return Some(Respond(req, BadRequest(why)));
        case Found(url) =>
          if !(StartsWith(url, "http://") || StartsWith(url, "https://")) {
            return Some(Respond(req, BadRequest("Invalid URL")));
          }
          var token := Generate.GenerateRandomFilename(cfg.words, env.stream);
          if !env.prepareOk {
            return Some(Respond(req, ServerError("SQL error: " + env.error)));
          }
          var done := Insert(urls, Bound(env.bindTokenOk, token), Bound(env.bindUrlOk, url), env.stepOk);
          if done.None? {
            return Some(Respond(req, ServerError("SQL error: " + env.error)));
          }
          urls := done.value;
          r := Some(Respond(req, RenderReply(env, path, PageData(cfg.hostname, Some(url), Some(token)))));
      }
    }

    method GetTemplate(req: Request, env: Env) returns (reply: Reply)
      ensures reply == HandleGetTemplate(cfg, req, env)
    {
      if req.verb != Get {
        return BadRequest("Unknown HTTP-method");
      }
      var path := Path.PathCat(cfg.docRoot, req.target);
      if EndsWith(req.target, "/") {
        path := path + "index.html";
      }
      reply := RenderReply(env, path, PageData(cfg.hostname, None, None));
    }

    method GetUrl(req: Request, env: Env) returns (reply: Reply)
      requires req.target != ""
      ensures reply == HandleGetUrl(urls, req, env)
    {
      if req.verb != Get {
        return BadRequest("Unknown HTTP-method");
      }
      if !env.prepareOk {
        return ServerError("SQL error: " + env.error);
      }
      var token := CStr(req.target[1..]);
      if !env.bindTokenOk {
        return ServerError("SQL error:" + env.error);
      }
      var url: string;
      if env.stepOk && token in urls {
        url := CStr(urls[token]);
      } else {
        url := FALLBACK;
      }
      reply := Redirect(url);
    }

    /** `handle_request`: guard, then the first route that matches. */
    method HandleRequest(req: Request, env: Env) returns (r: Option<Response>)
      requires Generate.ValidWords(cfg.words)
      modifies this
      ensures Outcome(urls, r) == Handle(cfg, old(urls), req, env)
    {
      hide HandlePost, HandleFile, HandleGetTemplate, HandleGetUrl, Matches;
      if req.target == "" || req.target[0] != '/' || Path.HasDotDot(req.target) {
        return Some(Respond(req, BadRequest("Illegal request-target")));
      }
      for n := 0 to |ROUTES|
        invariant urls == old(urls)
        invariant FirstMatch(ROUTES, req.target) == FirstMatch(ROUTES[n..], req.target)
      {
        assert ROUTES[n..][1..] == ROUTES[n + 1..];
        if Matches(ROUTES[n], req.target) {
          match ROUTES[n] {
            case AssetRoute =>
              var reply := ServeFile(req, env);
              return Some(Respond(req, reply));
            case PostRoute =>
              r := PostUrl(req, env);
              return;
            case RootRoute =>
              var reply := GetTemplate(req, env);
              return Some(Respond(req, reply));
            case TemplateRoute =>
              var reply := GetTemplate(req, env);
              return Some(Respond(req, reply));
            case UrlRoute =>
              var reply := GetUrl(req, env);
              return Some(Respond(req, reply));
          }
        }
      }
      r := Some(Respond(req, NotFound(req.target)));
    }
  }
}
