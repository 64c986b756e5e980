// What every request is answered, case by case, in terms of its target, its body and
// its environment.
module Answers {
  import opened Text
  import opened Shortener
  import opened Store
  import Generate
  import Multipart
  import ParseQs
  import Path

  // ---- No handler ---------------------------------------------------------------------

  /** A target the guard refuses, or that no route matches. */
  lemma UnroutedAnswer(cfg: Config, table: Table, req: Request, env: Env)
    requires Generate.ValidWords(cfg.words)
    ensures !GuardAccepts(req.target) ==>
              Handle(cfg, table, req, env)
              == Outcome(table, Some(Respond(req, BadRequest("Illegal request-target"))))
    ensures GuardAccepts(req.target) && FirstMatch(ROUTES, req.target) == None ==>
              Handle(cfg, table, req, env) == Outcome(table, Some(Respond(req, NotFound(req.target))))
  {
    hide ROUTES, FirstMatch, GuardAccepts, Dispatch, Respond;
  }

  // ---- Files ----------------------------------------------------------------------------

  /** The path of a file is the document root without a trailing slash, and the target. */
  lemma FilePath(cfg: Config, t: string) returns (dir: string, name: string)
    requires GuardAccepts(t)
    ensures Path.Joined(cfg.docRoot, t) == dir + "/" + name && '/' !in name
    ensures cfg.docRoot != "" && cfg.docRoot[|cfg.docRoot| - 1] == '/' ==>
              Path.Joined(cfg.docRoot, t) == cfg.docRoot[..|cfg.docRoot| - 1] + t
    ensures cfg.docRoot == "" || cfg.docRoot[|cfg.docRoot| - 1] != '/' ==>
              Path.Joined(cfg.docRoot, t) == cfg.docRoot + t
    ensures name == Path.Basename(Path.Joined(cfg.docRoot, t))
  {
    var path := Path.Joined(cfg.docRoot, t);
    assert path[|path| - |t|] == '/';
    dir := Path.BasenameText(path);
    name := Path.Basename(path);
  }

  /** What an asset is answered: the file's content with its type, its size and type to a
      HEAD, and an error for each other outcome. The type is that of the last name of the
      path, cut at its first NUL. */
  lemma AssetAnswer(cfg: Config, table: Table, req: Request, env: Env)
    returns (path: string, dir: string, name: string, reply: Reply)
    requires Generate.ValidWords(cfg.words) && GuardAccepts(req.target) && IsAsset(req.target)
    ensures Handle(cfg, table, req, env) == Outcome(table, Some(Respond(req, reply)))
    ensures path == dir + "/" + name && '/' !in name
    ensures path == Path.Joined(cfg.docRoot, req.target) && name == Path.Basename(path)
    ensures req.verb != Get && req.verb != Head ==> reply == BadRequest("Unknown HTTP-method")
    ensures req.verb == Get || req.verb == Head ==>
              match env.files(CStr(path))
              case Missing => reply == NotFound(req.target)
              case FileError(what) => reply == ServerError(what)
              case Opened(content) =>
                if req.verb == Get then
                  && reply.GetFile? && reply.content == content
                  && Path.IsLongestSuffixMatch(cfg.mime, CStr(name), reply.mime)
                else
                  && reply.HeadFile? && reply.size == |content|
                  && Path.IsLongestSuffixMatch(cfg.mime, CStr(name), reply.mime)
  {
    path := Path.Joined(cfg.docRoot, req.target);
    dir, name := FilePath(cfg, req.target);
    reply := HandleFile(cfg, req, env);
    Path.LookupIsLongestSuffix(cfg.mime, CStr(name));
    AssetSelected(req.target);
    hide ROUTES, FirstMatch, GuardAccepts, IsAsset, Path.Joined, Path.Basename, Path.Lookup, CStr, Respond;
    hide Path.IsLongestSuffixMatch;
  }

  lemma CutInName(dir: string, name: string)
    requires '\0' !in dir && '/' !in name
    ensures CStr(dir + "/" + name) == dir + "/" + CStr(name)
    ensures Path.Basename(dir + "/" + CStr(name)) == CStr(name)
  {
    var path, n := dir + "/" + name, Find(name, '\0');
    FindUnique(path, '\0', |dir| + 1 + n);
    var cut := dir + "/" + CStr(name);
    assert cut[|dir|] == '/' && cut[|dir| + 1..] == CStr(name);
    assert forall k | |dir| < k < |cut| :: cut[k] == name[k - |dir| - 1];
    assert Path.RFindSlash(cut) == |dir|;
  }

  /** The file that is opened is that of the path up to its first NUL. Its type is that of
      its own name, whatever the table of types, exactly when that name and the one the type
      is looked up for go on alike from their first dots; and so it is when no slash
      follows the NUL. */
  lemma OwnTypeIff(dir: string, name: string)
    requires '/' !in name
    ensures var own := Path.Basename(CStr(dir + "/" + name));
            && (Path.SameTypes(CStr(name), own) <==> Path.Extension(CStr(name)) == Path.Extension(own))
            && ('\0' !in dir ==> own == CStr(name))
  {
    hide CStr, Path.Basename, Path.SameTypes, Path.Extension;
    Path.SameTypeIff(CStr(name), Path.Basename(CStr(dir + "/" + name)));
    if '\0' !in dir {
      CutInName(dir, name);
    }
  }

  lemma CutTarget(cfg: Config, d: string, name: string)
    requires '\0' !in cfg.docRoot && '\0' !in d && d != "" && d[0] == '/'
    ensures CStr(Path.Joined(cfg.docRoot, d + "\0/" + name)) == Path.Joined(cfg.docRoot, d)
  {
    var t := d + "\0/" + name;
    FindUnique(t, '\0', |d|);
    assert CStr(t) == d;
    CStrOfJoined(cfg.docRoot, t);
  }

  lemma LastOfTarget(cfg: Config, front: string, name: string)
    requires '/' !in name
    ensures Path.Basename(Path.Joined(cfg.docRoot, front + "/" + name)) == name
  {
    var path := Path.Joined(cfg.docRoot, front + "/" + name);
    var at := |path| - |name| - 1;
    assert path[at] == '/' && path[at + 1..] == name;
    assert forall k | at < k < |path| :: path[k] == name[k - at - 1];
    assert Path.RFindSlash(path) == at;
  }

  /** With a slash after a NUL the file before the NUL is sent with the type of the name
      after the slash. */
  lemma TypeOfAnother(cfg: Config, table: Table, req: Request, env: Env, d: string, name: string)
    returns (mime: string)
    requires Generate.ValidWords(cfg.words) && GuardAccepts(req.target) && IsAsset(req.target) && req.verb == Get
    requires '\0' !in cfg.docRoot && '\0' !in d && d != "" && d[0] == '/'
    requires req.target == d + "\0/" + name && '/' !in name && '\0' !in name
    requires env.files(Path.Joined(cfg.docRoot, d)).Opened?
    ensures Path.IsLongestSuffixMatch(cfg.mime, name, mime)
    ensures Handle(cfg, table, req, env).response
         == Some(Respond(req, GetFile(mime, env.files(Path.Joined(cfg.docRoot, d)).content)))
  {
    hide *;
    CutTarget(cfg, d, name);
    SlashAfterNul(d, name);
    LastOfTarget(cfg, d + "\0", name);
    var path, _, last, reply := AssetAnswer(cfg, table, req, env);
    assert CStr(last) == name;
    mime := reply.mime;
  }

  lemma SlashAfterNul(d: string, name: string)
    ensures d + "\0/" + name == d + "\0" + "/" + name
  {
  }

  const TWO_NAMES := "/assets/" + "\0/b.css"

  lemma TwoNames()
    ensures GuardAccepts(TWO_NAMES) && IsAsset(TWO_NAMES)
  {
    assert TWO_NAMES[8..] == "\0/b.css" && OneLine("\0/b.css");
    assert StartsWith(TWO_NAMES, "/assets/");
    OnlyDot("/assets/" + "\0/b", "css");
    assert TWO_NAMES == "/assets/" + "\0/b" + "." + "css";
  }

  lemma OnlyDot(a: string, b: string)
    requires '.' !in a && '.' !in b
    ensures !Path.HasDotDot(a + "." + b)
  {
    var t := a + "." + b;
    assert forall i | 0 <= i < |t| :: t[i] == '.' ==> i == |a|;
  }

  // ---- Posts ------------------------------------------------------------------------------

  function StoredReply(rendered: RenderOutcome): Reply {
    match rendered
    case Rendered(html) => Page(html)
    case RenderError(what) => BadRequest("Could not serve page: " + what)
  }

  /** The data of the page that shows a stored url's token. */
  function TokenPage(cfg: Config, url: string, env: Env): PageData
    requires Generate.ValidWords(cfg.words)
  {
    PageData(cfg.hostname, Some(url), Some(Generate.Token(cfg.words, env.stream)))
  }

  lemma StoreAnswer(cfg: Config, table: Table, req: Request, env: Env, url: string)
    requires Generate.ValidWords(cfg.words)
    ensures StoreAndShow(cfg, table, req, env, url).1 ==
            if && env.prepareOk && env.bindTokenOk && env.bindUrlOk && env.stepOk
               && Generate.Token(cfg.words, env.stream) !in table && CStr(url) !in table.Values
            then StoredReply(env.render(TemplatePath(cfg, req), TokenPage(cfg, url, env)))
            else ServerError("SQL error: " + env.error)
  {
    TokenOfStream(cfg, env);
    hide Generate.Token, Generate.IsToken, TemplatePath, CStr;
  }

  lemma PrefixText(url: string)
    ensures HttpPrefix(url) <==> "http://" <= url || "https://" <= url
  {
  }

  /** What a post is answered. */
  lemma PostAnswer(cfg: Config, table: Table, req: Request, env: Env)
    requires Generate.ValidWords(cfg.words) && PostsTo(req)
    ensures var o, posted := Handle(cfg, table, req, env).response, PostedUrl(req, env);
            match posted
            case Thrown => o == None
            case Rejected(why) => o == Some(Respond(req, BadRequest(why)))
            case Found(url) =>
              o == Some(Respond(
                req,
                if !("http://" <= url || "https://" <= url) then BadRequest("Invalid URL")
                else if !Stores(cfg, table, req, env) then ServerError("SQL error: " + env.error)
                else StoredReply(env.render(TemplatePath(cfg, req), TokenPage(cfg, url, env)))))
  {
    HandleOfPost(cfg, table, req, env);
    hide Handle, PostedUrl, Generate.Token, TemplatePath, HttpPrefix, CStr, Respond, StoreAndShow;
    hide TokenPage, StoredReply;
    if PostedUrl(req, env).Found? {
      PrefixText(PostedUrl(req, env).url);
      StoreAnswer(cfg, table, req, env, PostedUrl(req, env).url);
    }
  }

  /** No rejection reads like a page that failed. */
  lemma Rejections(req: Request, env: Env, what: string)
    ensures PostedUrl(req, env).Rejected? ==> PostedUrl(req, env).why != "Could not serve page: " + what
    ensures "Invalid URL" != "Could not serve page: " + what
  {
    hide ParseQs.Parsed, Multipart.HeaderParams, Multipart.FeedAll, TrimRight, CStr, FirstUrl;
    assert ("Could not serve page: " + what)[0] == 'C';
    assert "No URL parameter passed"[0] == 'N' && "No URL specified"[0] == 'N' && "Bad request"[0] == 'B';
    assert ("Bad content type " + req.contentType)[0] == 'B' && "Invalid URL"[0] == 'I';
  }

  /** A post is answered with a page exactly when its row is stored and the page that shows
      its token renders, and it is told that the page failed exactly when only that fails:
      the row stays. */
  lemma StoredPostAnswerIff(cfg: Config, table: Table, req: Request, env: Env, html: string, what: string)
    requires Generate.ValidWords(cfg.words) && PostsTo(req)
    ensures var o := Handle(cfg, table, req, env);
            var stored := Stores(cfg, table, req, env);
            var rendered := if stored then
                              env.render(TemplatePath(cfg, req), TokenPage(cfg, PostedUrl(req, env).url, env))
                            else RenderError("");
            && (o.response == Some(Respond(req, Page(html))) <==> stored && rendered == Rendered(html))
            && (o.response == Some(Respond(req, BadRequest("Could not serve page: " + what)))
                <==> stored && rendered == RenderError(what))
            && (stored ==> Generate.Token(cfg.words, env.stream) in o.table)
  {
    PostAnswer(cfg, table, req, env);
    Rejections(req, env, what);
    TableAfterRequest(cfg, table, req, env);
    if PostedUrl(req, env).Found? {
      PrefixText(PostedUrl(req, env).url);
    }
    hide Handle, PostedUrl, Generate.Token, TemplatePath, HttpPrefix, CStr, TokenPage;
    forall s, t | "Could not serve page: " + s == "Could not serve page: " + t ensures s == t {
      SamePrefix("Could not serve page: ", s, t);
    }
  }

  lemma SamePrefix(p: string, s: string, t: string)
    requires p + s == p + t
    ensures s == t
  {
    assert (p + s)[|p|..] == s && (p + t)[|p|..] == t;
  }

  // ---- Finding the posted url ---------------------------------------------------------------

  /** Any content type but the two of a form is refused. */
  lemma OtherContentType(req: Request, env: Env)
    requires req.contentType != "application/x-www-form-urlencoded"
    requires !("multipart/form-data" <= req.contentType)
    ensures PostedUrl(req, env) == Rejected("Bad content type " + req.contentType)
  {
  }

  /** Whether the last boundary written is missing, stands alone or is empty. */
  lemma NoBoundary(ps: seq<Multipart.Param>, body: string, env: Env)
    requires ps != [] && Multipart.ValidParams(ps)
    requires var m := Multipart.LastMeaning(ps);
             "boundary" !in m || m["boundary"] == None || m["boundary"] == Some("")
    ensures MultipartUrl(Multipart.HeaderText(ps), body, env) == Rejected("Bad request")
  {
    Multipart.HeaderRoundTrip(ps);
    hide Multipart.HeaderText, Multipart.HeaderParams, Multipart.LastMeaning, Multipart.ValidParams;
  }

  /** With a boundary, the first url that the parser's callbacks give under it. */
  lemma WithBoundary(ps: seq<Multipart.Param>, boundary: string, body: string, env: Env)
    requires ps != [] && Multipart.ValidParams(ps) && boundary != ""
    requires "boundary" in Multipart.LastMeaning(ps) && Multipart.LastMeaning(ps)["boundary"] == Some(boundary)
    ensures var trace := env.parser(CStr(boundary), TrimRight(body));
            var url := FirstUrl(Multipart.FeedAll(Multipart.EMPTY, trace).sections);
            MultipartUrl(Multipart.HeaderText(ps), body, env)
            == if url == "" then Rejected("No URL specified") else Found(url)
  {
    Multipart.HeaderRoundTrip(ps);
    hide Multipart.HeaderText, Multipart.HeaderParams, Multipart.LastMeaning, Multipart.ValidParams;
    hide Multipart.FeedAll, FirstUrl, TrimRight;
  }

  /** What the parser is given keeps the body up to its last byte that is not white
      space. */
  lemma {:induction false} TrimRightExact(s: string)
    ensures TrimRight(s) <= s
    ensures forall k | |TrimRight(s)| <= k < |s| :: s[k] as int in {9, 10, 11, 12, 13, 32}
    ensures TrimRight(s) != "" ==> s[|TrimRight(s)| - 1] as int !in {9, 10, 11, 12, 13, 32}
  {
    if s != "" && Multipart.IsSpace(s[|s| - 1]) {
      TrimRightExact(s[..|s| - 1]);
    }
  }

  // ---- Templates -------------------------------------------------------------------------------

  /** What is answered at the pages, the posting page included when it is not posted to. */
  lemma TemplateAnswer(cfg: Config, table: Table, req: Request, env: Env)
    requires Generate.ValidWords(cfg.words) && GuardAccepts(req.target) && !IsAsset(req.target) && !PostsTo(req)
    requires req.target == "/" || HtmlPage(req.target)
    ensures Handle(cfg, table, req, env) == Outcome(table, Some(Respond(
      req,
      if req.verb != Get || req.target == "/post.html" then BadRequest("Unknown HTTP-method")
      else match env.render(TemplatePath(cfg, req), PageData(cfg.hostname, None, None))
           case Rendered(html) => Page(html)
           case RenderError(what) => BadRequest("Could not serve page: " + what))))
  {
    TemplateSelected(req.target);
    PostSelected(req.target);
    HandleCases(cfg, table, req, env);
    hide Handle, ROUTES, FirstMatch, GuardAccepts, IsAsset, HtmlPage, TemplatePath, Respond, PostedUrl, StoreAndShow;
  }

  lemma PostSelected(t: string)
    ensures t == "/post.html" ==> FirstMatch(ROUTES, t) == Some(PostRoute)
  {
    hide ROUTES, FirstMatch;
    PostPageRoute();
  }

  // ---- Redirects -------------------------------------------------------------------------------

  /** What is answered at the path of a token, stored or not. */
  lemma TokenAnswer(cfg: Config, table: Table, req: Request, env: Env)
    requires Generate.ValidWords(cfg.words) && GuardAccepts(req.target)
    requires FirstMatch(ROUTES, req.target) == Some(UrlRoute)
    ensures var token := CStr(req.target[1..]);
            Handle(cfg, table, req, env) == Outcome(table, Some(Respond(
              req,
              if req.verb != Get then BadRequest("Unknown HTTP-method")
              else if !env.prepareOk then ServerError("SQL error: " + env.error)
              else if !env.bindTokenOk then ServerError("SQL error:" + env.error)
              else if env.stepOk && token in table then Redirect(CStr(table[token]))
              else Redirect(FALLBACK))))
  {
    HandleCases(cfg, table, req, env);
    hide Handle, ROUTES, FirstMatch, GuardAccepts, CStr, Respond, FALLBACK;
  }
}
