// What a single request can and cannot do: where tokens are routed, when a row is
// stored, what redirects lead to, which files are opened.
module Store {
  import opened Text
  import opened Shortener
  import Generate
  import ParseQs
  import Path

  // ---- Routing ----------------------------------------------------------------------

  lemma RoutesInOrder(t: string)
    ensures FirstMatch(ROUTES, t) ==
            if Matches(AssetRoute, t) then Some(AssetRoute)
            else if Matches(PostRoute, t) then Some(PostRoute)
            else if Matches(RootRoute, t) then Some(RootRoute)
            else if Matches(TemplateRoute, t) then Some(TemplateRoute)
            else if Matches(UrlRoute, t) then Some(UrlRoute)
            else None
  {
    hide Matches;
    var r1 := [PostRoute, RootRoute, TemplateRoute, UrlRoute];
    var r2 := [RootRoute, TemplateRoute, UrlRoute];
    var r3 := [TemplateRoute, UrlRoute];
    var r4 := [UrlRoute];
    assert ROUTES[1..] == r1 && r1[1..] == r2 && r2[1..] == r3 && r3[1..] == r4 && r4[1..] == [];
    assert FirstMatch(r3, t) == if Matches(TemplateRoute, t) then Some(TemplateRoute) else FirstMatch(r4, t);
    assert FirstMatch(r1, t) == if Matches(PostRoute, t) then Some(PostRoute) else FirstMatch(r2, t);
  }

  /** What is served as a file: the icon, the robots file and everything under /assets/
      on one line. */
  predicate IsAsset(t: string) {
    t == "/favicon.ico" || t == "/robots.txt" || (StartsWith(t, "/assets/") && OneLine(t[8..]))
  }

  lemma AssetSelected(t: string)
    ensures FirstMatch(ROUTES, t) == Some(AssetRoute) <==> IsAsset(t)
  {
    RoutesInOrder(t);
    hide ROUTES, FirstMatch;
    assert Matches(AssetRoute, t) == IsAsset(t);
  }

  predicate HtmlPage(t: string) {
    |t| >= 6 && EndsWith(t, ".html") && OneLine(t[1..|t| - 5])
  }

  /** The route table on the text after the first slash. */
  lemma RoutesExact(rest: string)
    ensures FirstMatch(ROUTES, "/" + rest) ==
            if rest == "favicon.ico" || rest == "robots.txt"
               || ("assets/" <= rest && '\n' !in rest[7..] && '\r' !in rest[7..]) then Some(AssetRoute)
            else if rest == "post.html" then Some(PostRoute)
            else if rest == "" then Some(RootRoute)
            else if |rest| >= 5 && rest[|rest| - 5..] == ".html"
                    && '\n' !in rest[..|rest| - 5] && '\r' !in rest[..|rest| - 5] then Some(TemplateRoute)
            else if '/' !in rest then Some(UrlRoute)
            else None
  {
    var t := "/" + rest;
    RoutesInOrder(t);
    AssetText(rest);
    PageText(rest);
    OtherText(rest);
    hide *;
  }

  lemma OtherText(rest: string)
    ensures Matches(PostRoute, "/" + rest) <==> rest == "post.html"
    ensures Matches(RootRoute, "/" + rest) <==> rest == ""
    ensures Matches(UrlRoute, "/" + rest) <==> rest != "" && '/' !in rest
  {
    assert ("/" + rest)[1..] == rest && "/post.html" == "/" + "post.html" && "/" == "/" + "";
    SlashCancels(rest, "post.html");
    SlashCancels(rest, "");
  }

  lemma SlashCancels(a: string, b: string)
    ensures "/" + a == "/" + b <==> a == b
  {
    assert ("/" + a)[1..] == a && ("/" + b)[1..] == b;
  }

  lemma AssetText(rest: string)
    ensures Matches(AssetRoute, "/" + rest) <==>
              || rest == "favicon.ico" || rest == "robots.txt"
              || ("assets/" <= rest && '\n' !in rest[7..] && '\r' !in rest[7..])
  {
    var t := "/" + rest;
    SlashCancels(rest, "favicon.ico");
    SlashCancels(rest, "robots.txt");
    assert "/favicon.ico" == "/" + "favicon.ico" && "/robots.txt" == "/" + "robots.txt";
    PrefixCancels("assets/", rest);
    if "assets/" <= rest {
      assert t[8..] == rest[7..];
    }
  }

  lemma PrefixCancels(p: string, rest: string)
    ensures StartsWith("/" + rest, "/" + p) <==> p <= rest
  {
    if p <= rest {
      assert "/" + rest == ("/" + p) + rest[|p|..];
    }
    if StartsWith("/" + rest, "/" + p) {
      assert ("/" + p)[1..] == p && ("/" + rest)[1..][..|p|] == ("/" + rest)[..|p| + 1][1..];
      assert ("/" + rest)[1..] == rest;
    }
  }

  lemma PageText(rest: string)
    ensures Matches(TemplateRoute, "/" + rest) <==>
              || rest == ""
              || (|rest| >= 5 && rest[|rest| - 5..] == ".html"
                  && '\n' !in rest[..|rest| - 5] && '\r' !in rest[..|rest| - 5])
  {
    var t := "/" + rest;
    if |rest| >= 5 {
      assert t[|t| - 5..] == rest[|rest| - 5..] && t[1..|t| - 5] == rest[..|rest| - 5];
    }
  }

  lemma DotsAt(t: string, i: nat)
    requires i + 1 < |t| && t[i] == '.' && t[i + 1] == '.'
    ensures t == t[..i] + ".." + t[i + 2..]
  {
    assert t[i..i + 2] == "..";
    assert t == t[..i] + t[i..i + 2] + t[i + 2..];
  }

  lemma DotsIn(a: string, b: string)
    ensures Path.HasDotDot(a + ".." + b)
  {
    var t := a + ".." + b;
    assert t[|a|] == '.' && t[|a| + 1] == '.';
  }

  /** The guard passes exactly the targets that begin with a slash and have no two dots
      side by side. */
  lemma GuardExact(t: string)
    ensures GuardAccepts(t) <==> (exists rest :: t == "/" + rest) && !exists a, b :: t == a + ".." + b
  {
    if t != "" && t[0] == '/' {
      assert t == "/" + t[1..];
    }
    if Path.HasDotDot(t) {
      var i :| 0 <= i < |t| - 1 && t[i] == '.' && t[i + 1] == '.';
      DotsAt(t, i);
    }
    forall a, b | t == a + ".." + b ensures Path.HasDotDot(t) {
      DotsIn(a, b);
    }
  }

  lemma AssetsAreNested(t: string)
    requires StartsWith(t, "/assets/")
    ensures '/' in t[1..]
  {
    assert t[1..][6] == '/';
  }

  lemma PostPageIsHtml()
    ensures HtmlPage("/post.html")
  {
    var t := "/post.html";
    assert t[|t| - 5..] == ".html";
    assert t[1..|t| - 5] == "post";
  }

  /** The route table in closed form, for targets the guard accepts. */
  lemma UrlRouteExact(t: string)
    requires GuardAccepts(t)
    ensures FirstMatch(ROUTES, t) == Some(UrlRoute) <==>
              && |t| >= 2 && '/' !in t[1..]
              && t != "/favicon.ico" && t != "/robots.txt"
              && !HtmlPage(t)
  {
    RoutesInOrder(t);
    PostPageIsHtml();
    hide ROUTES, FirstMatch;
    if StartsWith(t, "/assets/") {
      AssetsAreNested(t);
    }
  }

  lemma ExtensionShape(e: nat)
    requires e < |Generate.EXT|
    ensures 4 <= |Generate.EXT[e]| <= 5 && Generate.EXT[e][0] == '.'
    ensures forall k | 1 <= k < |Generate.EXT[e]| :: Generate.RandomChar(Generate.EXT[e][k])
    ensures Generate.EXT[e] != ".html"
  {
  }

  lemma DottedOnce(stem: string, x: string)
    requires x != "" && x[0] == '.'
    requires forall k | 0 <= k < |stem| :: Generate.RandomChar(stem[k])
    requires forall k | 1 <= k < |x| :: Generate.RandomChar(x[k])
    ensures forall k | 0 <= k < |stem + x| :: Generate.Unreserved((stem + x)[k])
    ensures OneDot(stem + x)
  {
    var t := stem + x;
    assert t[|stem|] == '.';
    forall k | 0 <= k < |t| ensures Generate.Unreserved(t[k]) && (t[k] == '.' ==> k == |stem|) {
      assert t[k] == if k < |stem| then stem[k] else x[k - |stem|];
    }
  }

  ghost predicate OneDot(t: string) {
    exists d :: 0 <= d < |t| && t[d] == '.' && forall k | 0 <= k < |t| :: t[k] == '.' ==> k == d
  }

  lemma NotHtml(stem: string, x: string)
    requires 4 <= |x| <= 5 && x != ".html" && stem != "" && Generate.RandomChar(stem[|stem| - 1])
    ensures !EndsWith(stem + x, ".html")
  {
    var t := stem + x;
    if |x| == 5 {
      assert t[|t| - 5..] == x;
    } else {
      assert t[|t| - 5..][0] == stem[|stem| - 1];
    }
  }

  /** A token has exactly one dot, only unreserved characters, and a dash. */
  lemma TokenCharacters(words: seq<string>, t: string)
    requires Generate.ValidWords(words) && Generate.IsToken(words, t)
    ensures forall k | 0 <= k < |t| :: Generate.Unreserved(t[k])
    ensures OneDot(t) && '-' in t && !EndsWith(t, ".html")
  {
    hide Generate.EXT;
    var stem, e := Generate.TokenParts(words, t);
    ExtensionShape(e);
    DottedOnce(stem, Generate.EXT[e]);
    NotHtml(stem, Generate.EXT[e]);
    var i :| 0 <= i < |stem| && stem[i] == '-';
    assert t[i] == '-';
  }

  lemma DashedIsNoFile(path: string)
    requires '-' in path
    ensures path != "/favicon.ico" && path != "/robots.txt"
  {
  }

  lemma OneDotIsNoDotDot(t: string)
    requires OneDot(t)
    ensures GuardAccepts("/" + t)
  {
    var path := "/" + t;
    assert forall k | 0 <= k < |t| :: path[k + 1] == t[k];
  }

  lemma PathIsNoPage(t: string)
    requires !EndsWith(t, ".html")
    ensures !HtmlPage("/" + t)
  {
    var path := "/" + t;
    assert |path| >= 6 ==> path[|path| - 5..] == t[|t| - 5..];
  }

  lemma {:induction false} TokenPath(t: string)
    requires OneDot(t) && '-' in t && !EndsWith(t, ".html")
    ensures GuardAccepts("/" + t) && !HtmlPage("/" + t)
    ensures '-' in "/" + t && ("/" + t)[1..] == t
  {
    OneDotIsNoDotDot(t);
    PathIsNoPage(t);
    var i :| 0 <= i < |t| && t[i] == '-';
    assert ("/" + t)[i + 1] == '-';
  }

  /** Whatever the stream, the token's own path passes the guard and is routed to
      the redirecting handler. */
  lemma TokenIsRoutedToUrl(words: seq<string>, t: string)
    requires Generate.ValidWords(words) && Generate.IsToken(words, t)
    ensures GuardAccepts("/" + t)
    ensures FirstMatch(ROUTES, "/" + t) == Some(UrlRoute)
    ensures ("/" + t)[1..] == t && CStr(t) == t
  {
    hide Generate.IsToken, OneDot, EndsWith, HtmlPage, GuardAccepts, ROUTES, FirstMatch;
    TokenCharacters(words, t);
    TokenPath(t);
    DashedIsNoFile("/" + t);
    UrlRouteExact("/" + t);
  }

  // ---- The table ------------------------------------------------------------------------

  /** One url for each token and one token for each url; tokens are the generator's,
      urls are what SQLite stores of an accepted one. */
  ghost predicate StoreInv(words: seq<string>, table: Table) {
    && (forall t, u | t in table && u in table && table[t] == table[u] :: t == u)
    && (forall t | t in table :: Generate.IsToken(words, t))
    && (forall t | t in table :: HttpPrefix(table[t]) && '\0' !in table[t])
  }

  predicate PostsTo(req: Request) {
    req.verb == Post && req.target == "/post.html"
  }

  /** When a request stores a row: nothing a caller or the environment decides is
      left out. */
  ghost predicate Stores(cfg: Config, table: Table, req: Request, env: Env)
    requires Generate.ValidWords(cfg.words)
  {
    && PostsTo(req)
    && PostedUrl(req, env).Found? && HttpPrefix(PostedUrl(req, env).url)
    && env.prepareOk && env.bindTokenOk && env.bindUrlOk && env.stepOk
    && Generate.Token(cfg.words, env.stream) !in table
    && CStr(PostedUrl(req, env).url) !in table.Values
  }

  lemma PostPageRoute()
    ensures GuardAccepts("/post.html") && FirstMatch(ROUTES, "/post.html") == Some(PostRoute)
  {
    var t := "/post.html";
    RoutesInOrder(t);
    assert t[1] == 'p';
    assert !Matches(AssetRoute, t) && Matches(PostRoute, t);
  }

  lemma OnlyPostPageIsPosted(t: string)
    ensures FirstMatch(ROUTES, t) == Some(PostRoute) ==> t == "/post.html"
  {
    RoutesInOrder(t);
  }

  lemma HandleOfPost(cfg: Config, table: Table, req: Request, env: Env)
    requires Generate.ValidWords(cfg.words)
    ensures PostsTo(req) ==> Handle(cfg, table, req, env) == HandlePost(cfg, table, req, env)
    ensures !PostsTo(req) ==> Handle(cfg, table, req, env).table == table && Handle(cfg, table, req, env).response.Some?
  {
    hide RenderReply, HandleFile, HandleGetTemplate, HandleGetUrl, ROUTES, FirstMatch, PostedUrl, StoreAndShow;
    PostPageRoute();
    OnlyPostPageIsPosted(req.target);
  }

  lemma TableAfterStoring(cfg: Config, table: Table, req: Request, env: Env, url: string)
    requires Generate.ValidWords(cfg.words)
    ensures var t := Generate.Token(cfg.words, env.stream);
            StoreAndShow(cfg, table, req, env, url).0 ==
            if && env.prepareOk && env.bindTokenOk && env.bindUrlOk && env.stepOk
               && t !in table && CStr(url) !in table.Values
            then table[t := CStr(url)] else table
  {
    TokenOfStream(cfg, env);
    hide Generate.Token, Generate.IsToken, RenderReply, CStr;
  }

  /** The table after a request, exactly: one row more when the request stores one,
      and no change otherwise. */
  lemma TableAfterRequest(cfg: Config, table: Table, req: Request, env: Env)
    requires Generate.ValidWords(cfg.words)
    ensures Handle(cfg, table, req, env).table ==
            if Stores(cfg, table, req, env)
            then table[Generate.Token(cfg.words, env.stream) := CStr(PostedUrl(req, env).url)]
            else table
  {
    hide Handle, PostedUrl, Generate.Token, StoreAndShow, HttpPrefix, CStr;
    HandleOfPost(cfg, table, req, env);
    if PostsTo(req) && PostedUrl(req, env).Found? {
      TableAfterStoring(cfg, table, req, env, PostedUrl(req, env).url);
    }
  }

  lemma TokenOfStream(cfg: Config, env: Env)
    requires Generate.ValidWords(cfg.words)
    ensures Generate.IsToken(cfg.words, Generate.Token(cfg.words, env.stream))
    ensures CStr(Generate.Token(cfg.words, env.stream)) == Generate.Token(cfg.words, env.stream)
  {
    Generate.TokenIsToken(cfg.words, env.stream);
    TokenIsRoutedToUrl(cfg.words, Generate.Token(cfg.words, env.stream));
  }

  lemma {:induction false} PrefixSurvivesNul(url: string)
    requires HttpPrefix(url)
    ensures HttpPrefix(CStr(url)) && '\0' !in CStr(url)
  {
    var p := if StartsWith(url, "http://") then "http://" else "https://";
    assert forall k | 0 <= k < |p| :: url[k] == p[k] && p[k] != '\0';
    assert |CStr(url)| >= |p|;
  }

  /** A post answers with a page only when its row is in the table, under the very
      token the page was rendered with. */
  lemma PageMeansStored(cfg: Config, table: Table, req: Request, env: Env)
    requires Generate.ValidWords(cfg.words) && PostsTo(req)
    ensures var o := Handle(cfg, table, req, env);
            o.response.Some? && o.response.value.reply.Page? ==>
              && Stores(cfg, table, req, env)
              && var url := PostedUrl(req, env).url;
                 var token := Generate.Token(cfg.words, env.stream);
                 && token in o.table && o.table[token] == CStr(url)
                 && env.render(TemplatePath(cfg, req), PageData(cfg.hostname, Some(url), Some(token)))
                    == Rendered(o.response.value.reply.html)
  {
    hide Handle, PostedUrl, Generate.Token, TemplatePath;
    HandleOfPost(cfg, table, req, env);
    TokenOfStream(cfg, env);
  }

  /** An accepted url is answered with a server error exactly when it is not stored;
      a page that fails to render leaves its row. */
  lemma ServerErrorIffNotStored(cfg: Config, table: Table, req: Request, env: Env)
    requires Generate.ValidWords(cfg.words) && PostsTo(req)
    requires PostedUrl(req, env).Found? && HttpPrefix(PostedUrl(req, env).url)
    ensures var o := Handle(cfg, table, req, env);
            && o.response.Some?
            && (o.response.value.reply.ServerError? <==> !Stores(cfg, table, req, env))
            && (o.response.value.reply.BadRequest? ==> o.table != table)
  {
    hide Handle, PostedUrl, Generate.Token, TemplatePath, HttpPrefix;
    HandleOfPost(cfg, table, req, env);
    TokenOfStream(cfg, env);
  }

  /** Every request keeps the store invariant and every row. */
  lemma RequestKeepsStore(cfg: Config, table: Table, req: Request, env: Env)
    requires Generate.ValidWords(cfg.words) && StoreInv(cfg.words, table)
    ensures var table' := Handle(cfg, table, req, env).table;
            && StoreInv(cfg.words, table')
            && (forall t | t in table :: t in table' && table'[t] == table[t])
  {
    hide Handle, PostedUrl, Generate.Token, Generate.IsToken;
    TableAfterRequest(cfg, table, req, env);
    if Stores(cfg, table, req, env) {
      TokenOfStream(cfg, env);
      PrefixSurvivesNul(PostedUrl(req, env).url);
    }
  }

  /** A stored token redirects to its url as long as SQLite answers. */
  lemma StoredTokenRedirects(cfg: Config, table: Table, t: string, req: Request, env: Env)
    requires Generate.ValidWords(cfg.words) && StoreInv(cfg.words, table) && t in table
    requires req.verb == Get && req.target == "/" + t
    requires env.prepareOk && env.bindTokenOk && env.stepOk
    ensures Handle(cfg, table, req, env) == Outcome(table, Some(Respond(req, Redirect(table[t]))))
  {
    hide Generate.IsToken, GuardAccepts, ROUTES, FirstMatch;
    TokenIsRoutedToUrl(cfg.words, t);
  }

  lemma FallbackIsHttp()
    ensures HttpPrefix(FALLBACK)
  {
    assert StartsWith(FALLBACK, "https://");
  }

  lemma PostsDoNotRedirect(cfg: Config, table: Table, req: Request, env: Env)
    requires Generate.ValidWords(cfg.words)
    ensures var r := HandlePost(cfg, table, req, env).response; r.Some? ==> !r.value.reply.Redirect?
  {
    hide PostedUrl, Insert, HttpPrefix, Generate.Token, TemplatePath, CStr;
  }

  lemma OnlyUrlsRedirect(cfg: Config, table: Table, req: Request, env: Env)
    requires Generate.ValidWords(cfg.words)
    ensures !HandleFile(cfg, req, env).Redirect?
    ensures !HandleGetTemplate(cfg, req, env).Redirect?
    ensures var r := HandlePost(cfg, table, req, env).response; r.Some? ==> !r.value.reply.Redirect?
  {
    hide HandlePost, TemplatePath, Path.Joined, Path.Lookup, CStr;
    PostsDoNotRedirect(cfg, table, req, env);
  }

  lemma {:induction false} GetUrlRedirects(words: seq<string>, table: Table, req: Request, env: Env)
    requires StoreInv(words, table) && req.target != ""
    ensures var r := HandleGetUrl(table, req, env); r.Redirect? ==> HttpPrefix(r.location)
  {
    hide HttpPrefix, Generate.IsToken, FALLBACK;
    FallbackIsHttp();
  }

  /** Every redirect leads to an http or https url. */
  lemma RedirectsAreHttp(cfg: Config, table: Table, req: Request, env: Env)
    requires Generate.ValidWords(cfg.words) && StoreInv(cfg.words, table)
    ensures var r := Handle(cfg, table, req, env).response;
            r.Some? && r.value.reply.Redirect? ==> HttpPrefix(r.value.reply.location)
  {
    hide ROUTES, FirstMatch, StoreInv, HttpPrefix, HandlePost, HandleFile, HandleGetTemplate, HandleGetUrl;
    OnlyUrlsRedirect(cfg, table, req, env);
    if GuardAccepts(req.target) {
      GetUrlRedirects(cfg.words, table, req, env);
    }
  }

  /** Storing a url twice never succeeds: its row is unique and never goes away. Urls
      that differ only after a NUL are the same to the table. */
  lemma StoredUrlIsRefused(cfg: Config, table: Table, t: string, req: Request, env: Env)
    requires Generate.ValidWords(cfg.words) && t in table
    requires PostsTo(req) && PostedUrl(req, env).Found?
    requires HttpPrefix(PostedUrl(req, env).url) && CStr(PostedUrl(req, env).url) == table[t]
    ensures Handle(cfg, table, req, env)
         == Outcome(table, Some(Respond(req, ServerError("SQL error: " + env.error))))
  {
    hide PostedUrl, Generate.Token, RenderReply, HttpPrefix, Handle, CStr;
    HandleOfPost(cfg, table, req, env);
    assert table[t] in table.Values;
  }

  /** An exception escapes exactly for a urlencoded post with too many separators. */
  lemma ThrowsIff(cfg: Config, table: Table, req: Request, env: Env)
    requires Generate.ValidWords(cfg.words)
    ensures Handle(cfg, table, req, env).response.None? <==>
              && PostsTo(req)
              && req.contentType == "application/x-www-form-urlencoded"
              && Count(req.body, '&') > 1000
  {
    hide Handle, StoreAndShow, ParseQs.Query, Count;
    HandleOfPost(cfg, table, req, env);
  }

  // ---- Closing ----------------------------------------------------------------------------

  /** The requests that are answered with a redirect. */
  predicate IsRedirected(req: Request, env: Env) {
    && GuardAccepts(req.target) && FirstMatch(ROUTES, req.target) == Some(UrlRoute)
    && req.verb == Get && env.prepareOk && env.bindTokenOk
  }

  lemma RedirectsIff(cfg: Config, table: Table, req: Request, env: Env)
    requires Generate.ValidWords(cfg.words)
    ensures var r := Handle(cfg, table, req, env).response;
            r.Some? && r.value.reply.Redirect? <==> IsRedirected(req, env)
  {
    hide ROUTES, FirstMatch, GuardAccepts, HandlePost, HandleFile, HandleGetTemplate, FALLBACK, CStr;
    OnlyUrlsRedirect(cfg, table, req, env);
  }

  /** Whether the connection closes after the answer: a redirect looks only at the
      version, everything else at the request's own choice. */
  predicate Closes(req: Request, env: Env) {
    if IsRedirected(req, env) then req.version < 11 else !req.keepAlive
  }

  lemma HandleResponds(cfg: Config, table: Table, req: Request, env: Env)
    requires Generate.ValidWords(cfg.words)
    ensures var r := Handle(cfg, table, req, env).response;
            r.Some? ==> r.value == Respond(req, r.value.reply)
  {
    hide ROUTES, FirstMatch, GuardAccepts, PostedUrl, HttpPrefix;
    hide StoreAndShow, HandleFile, HandleGetTemplate, HandleGetUrl;
  }

  lemma AnswerClosesIff(cfg: Config, table: Table, req: Request, env: Env)
    requires Generate.ValidWords(cfg.words)
    ensures var r := Handle(cfg, table, req, env).response;
            r.Some? ==> (r.value.needEof <==> Closes(req, env))
  {
    hide Handle, IsRedirected;
    HandleResponds(cfg, table, req, env);
    RedirectsIff(cfg, table, req, env);
  }

  /** The response's close is the request's own exactly when the request is not one
      that is redirected, or chose its version's default. */
  lemma CloseIsHonouredIff(cfg: Config, table: Table, req: Request, env: Env)
    requires Generate.ValidWords(cfg.words)
    ensures var r := Handle(cfg, table, req, env).response;
            r.Some? ==>
              (r.value.needEof == !req.keepAlive
               <==> !IsRedirected(req, env) || req.keepAlive == (req.version >= 11))
  {
    hide Handle, IsRedirected;
    AnswerClosesIff(cfg, table, req, env);
  }

  /** A GET that asks to close and is answered with a redirect that does not. */
  lemma RedirectIgnoresClose(cfg: Config, table: Table, req: Request, env: Env)
    requires Generate.ValidWords(cfg.words)
    requires req.target == "/x" && req.verb == Get && req.version == 11 && !req.keepAlive
    requires env.prepareOk && env.bindTokenOk
    ensures var r := Handle(cfg, table, req, env).response;
            r.Some? && r.value.reply.Redirect? && !r.value.needEof
  {
    XIsRoutedToUrl();
    hide GuardAccepts, FirstMatch, ROUTES;
  }

  // ---- Files and templates ------------------------------------------------------------------

  /** The path a file request hands to open. */
  function OpenedPath(cfg: Config, req: Request): string {
    CStr(Path.Joined(cfg.docRoot, req.target))
  }

  lemma HeadElsewhere(cfg: Config, table: Table, head: Request, env: Env)
    requires Generate.ValidWords(cfg.words) && head.verb == Head
    ensures HandlePost(cfg, table, head, env).response == Some(Respond(head, BadRequest("Unknown HTTP-method")))
    ensures HandleGetTemplate(cfg, head, env) == BadRequest("Unknown HTTP-method")
    ensures head.target != "" ==> HandleGetUrl(table, head, env) == BadRequest("Unknown HTTP-method")
  {
  }

  lemma ErrorsHaveContent(reply: Reply)
    requires reply.NotFound? || reply.ServerError?
    ensures Content(reply) != ""
  {
    assert |Content(reply)| >= 1;
  }

  lemma HeadOfFile(cfg: Config, head: Request, env: Env)
    requires head.verb == Head
    ensures var reply := HandleFile(cfg, head, env);
            && (Content(reply) == "" <==> env.files(OpenedPath(cfg, head)).Opened?)
            && (Content(reply) == "" ==>
                  var get := HandleFile(cfg, head.(verb := Get), env);
                  get.GetFile? && reply == HeadFile(get.mime, |get.content|))
  {
    hide Path.Lookup, Path.Joined, CStr;
    var reply := HandleFile(cfg, head, env);
    if reply.NotFound? || reply.ServerError? {
      ErrorsHaveContent(reply);
    }
  }

  lemma NoRouteHasContent(t: string)
    ensures Content(NotFound(t)) != ""
    ensures Content(BadRequest("Unknown HTTP-method")) != "" && Content(BadRequest("Illegal request-target")) != ""
  {
    ErrorsHaveContent(NotFound(t));
  }

  lemma HandleCases(cfg: Config, table: Table, req: Request, env: Env)
    requires Generate.ValidWords(cfg.words)
    ensures GuardAccepts(req.target) ==> req.target != "" && req.target[0] == '/'
    ensures Handle(cfg, table, req, env) ==
            if !GuardAccepts(req.target) then
              Outcome(table, Some(Respond(req, BadRequest("Illegal request-target"))))
            else if FirstMatch(ROUTES, req.target).None? then
              Outcome(table, Some(Respond(req, NotFound(req.target))))
            else Dispatch(cfg, table, req, env, FirstMatch(ROUTES, req.target).value)
  {
    hide ROUTES, FirstMatch, Dispatch, Respond;
  }

  lemma HeadDispatch(cfg: Config, table: Table, req: Request, env: Env, r: Route)
    requires Generate.ValidWords(cfg.words) && req.verb == Head && req.target != ""
    ensures var o := Dispatch(cfg, table, req, env, r).response;
            && o.Some?
            && (Content(o.value.reply) == "" <==> r == AssetRoute && env.files(OpenedPath(cfg, req)).Opened?)
  {
    HeadElsewhere(cfg, table, req, env);
    HeadOfFile(cfg, req, env);
    NoRouteHasContent(req.target);
    hide HandleFile, HandlePost, HandleGetTemplate, HandleGetUrl, OpenedPath, Content;
  }

  /** The answer to HEAD carries no content, as section 9.3.2 of RFC 9110 demands,
      exactly when an asset is asked for and the file opens. */
  lemma HeadHasNoContentIff(cfg: Config, table: Table, req: Request, env: Env)
    requires Generate.ValidWords(cfg.words) && req.verb == Head
    ensures var r := Handle(cfg, table, req, env).response;
            && r.Some?
            && (Content(r.value.reply) == "" <==>
                  && GuardAccepts(req.target) && IsAsset(req.target)
                  && env.files(OpenedPath(cfg, req)).Opened?)
  {
    HandleCases(cfg, table, req, env);
    NoRouteHasContent(req.target);
    AssetSelected(req.target);
    hide ROUTES, FirstMatch, GuardAccepts, Handle, Dispatch, OpenedPath, Content, IsAsset;
    if GuardAccepts(req.target) && FirstMatch(ROUTES, req.target).Some? {
      HeadDispatch(cfg, table, req, env, FirstMatch(ROUTES, req.target).value);
    }
  }

  /** HEAD reports the type and size of what GET sends, whenever it sends no content
      of its own. */
  lemma HeadMatchesGet(cfg: Config, table: Table, head: Request, env: Env)
    requires Generate.ValidWords(cfg.words) && head.verb == Head
    ensures var h := Handle(cfg, table, head, env).response;
            var g := Handle(cfg, table, head.(verb := Get), env).response;
            h.Some? && Content(h.value.reply) == "" ==>
              && g.Some? && g.value.reply.GetFile?
              && h.value.reply == HeadFile(g.value.reply.mime, |g.value.reply.content|)
  {
    HeadHasNoContentIff(cfg, table, head, env);
    AssetSelected(head.target);
    HeadOfFile(cfg, head, env);
    hide IsAsset, ROUTES, FirstMatch, GuardAccepts, HandleFile;
    hide HandlePost, HandleGetTemplate, HandleGetUrl, OpenedPath, Content;
  }

  /** A HEAD request whose answer carries content. */
  lemma HeadCarriesContent(cfg: Config, table: Table, req: Request, env: Env)
    requires Generate.ValidWords(cfg.words) && req.verb == Head && req.target == "/x"
    ensures var r := Handle(cfg, table, req, env).response;
            r.Some? && Content(r.value.reply) == "Unknown HTTP-method"
  {
    XIsRoutedToUrl();
    hide GuardAccepts, FirstMatch, ROUTES;
    HeadElsewhere(cfg, table, req, env);
  }

  lemma XIsRoutedToUrl()
    ensures GuardAccepts("/x") && FirstMatch(ROUTES, "/x") == Some(UrlRoute)
  {
    var t := "/x";
    assert t[1..] == "x" && t[1] == 'x';
    assert GuardAccepts(t);
    assert !HtmlPage(t);
    UrlRouteExact(t);
  }

  lemma CStrOfJoined(base: string, target: string)
    requires '\0' !in base && target != "" && target[0] == '/'
    ensures CStr(Path.Joined(base, target)) == Path.Joined(base, CStr(target))
    ensures CStr(target) != "" && CStr(target)[0] == '/'
  {
    var b := Path.WithoutTrailingSlash(base);
    var n := Find(target, '\0');
    FindUnique(b + target, '\0', |b| + n);
  }

  /** A path that is `root` followed by names, and absolute when the root is; an empty
      root makes it absolute too, so only a root that is not empty contains it. */
  ghost predicate LiesBelow(path: string, root: string, names: seq<string>) {
    && Path.Resolve(path) == Path.Resolve(root) + names && ".." !in names
    && path != "" && (path[0] == '/' <==> root == "" || root[0] == '/')
  }

  /** Every file opened for an accepted target lies below the document root. */
  lemma OpenedFileIsBelowRoot(cfg: Config, req: Request)
    requires '\0' !in cfg.docRoot
    requires GuardAccepts(req.target)
    ensures LiesBelow(OpenedPath(cfg, req), cfg.docRoot, Path.Names(Split(CStr(req.target)[1..], '/')))
  {
    CStrOfJoined(cfg.docRoot, req.target);
    var t := CStr(req.target);
    assert !Path.HasDotDot(t) by {
      assert forall k | 0 <= k < |t| :: t[k] == req.target[k];
    }
    Path.JoinedStaysBelowBase(cfg.docRoot, t);
  }

  lemma OneName(file: string)
    requires '/' !in file && file != "" && file != "."
    ensures Split(file, '/') == [file] && Path.Names([file]) == [file]
  {
    FindUnique(file, '/', |file|);
    assert [file][1..] == [] && Path.Names([]) == [];
  }

  lemma ResolveFile(p: string, file: string)
    requires EndsWith(p, "/") && '/' !in file && file != "" && file != "." && file != ".."
    ensures Path.Resolve(p + file) == Path.Resolve(p) + [file]
  {
    OneName(file);
    var q := p[..|p| - 1];
    assert p == q + "/" && p + file == q + "/" + file;
    Path.ResolveWithoutTrailingSlash(p);
    hide Path.WalkAll, Path.Names, Split;
    SplitConcat(q, file, '/');
    Path.WalkAllConcat([], Split(q, '/'), [file]);
    Path.WalkDescends(Path.Resolve(q), [file]);
  }

  /** The names a template request leads to. */
  function TemplateNames(req: Request): seq<string>
    requires req.target != ""
  {
    Path.Names(Split(req.target[1..], '/')) + if EndsWith(req.target, "/") then ["index.html"] else []
  }

  lemma IndexLiesBelow(p: string, root: string, names: seq<string>)
    requires LiesBelow(p, root, names) && EndsWith(p, "/")
    ensures LiesBelow(p + "index.html", root, names + ["index.html"])
  {
    ResolveFile(p, "index.html");
    assert (p + "index.html")[0] == p[0];
    hide Path.Resolve;
    assert Path.Resolve(root) + names + ["index.html"] == Path.Resolve(root) + (names + ["index.html"]);
  }

  /** Every template rendered for an accepted target lies below the document root. */
  lemma TemplatesLieBelowRoot(cfg: Config, req: Request)
    requires GuardAccepts(req.target)
    ensures LiesBelow(TemplatePath(cfg, req), cfg.docRoot, TemplateNames(req))
  {
    var p, names := Path.Joined(cfg.docRoot, req.target), Path.Names(Split(req.target[1..], '/'));
    Path.JoinedStaysBelowBase(cfg.docRoot, req.target);
    assert EndsWith(req.target, "/") ==> p[|p| - 1] == '/' && EndsWith(p, "/");
    assert LiesBelow(p, cfg.docRoot, names);
    hide LiesBelow, Path.Joined, Path.Names, Split, GuardAccepts;
    if EndsWith(req.target, "/") {
      IndexLiesBelow(p, cfg.docRoot, names);
    } else {
      assert names + [] == names;
    }
  }

  lemma PageDispatch(cfg: Config, table: Table, req: Request, env: Env, r: Route)
    requires Generate.ValidWords(cfg.words) && req.target != "" && (r == PostRoute ==> req.verb != Post)
    ensures var o := Dispatch(cfg, table, req, env, r).response;
            var rendered := env.render(TemplatePath(cfg, req), PageData(cfg.hostname, None, None));
            && o.Some?
            && (o.value.reply.Page? <==>
                  (r == RootRoute || r == TemplateRoute) && req.verb == Get && rendered.Rendered?)
            && (o.value.reply.Page? ==> rendered == Rendered(o.value.reply.html))
  {
    hide TemplatePath, Path.Joined, Path.Lookup, CStr, PostedUrl, StoreAndShow;
    OnlyGetPages(cfg, table, req, env);
    hide HandlePost, HandleFile, HandleGetUrl;
  }

  lemma TemplateSelected(t: string)
    requires t != "" && t[0] == '/'
    ensures var r := FirstMatch(ROUTES, t);
            && (r == Some(RootRoute) || r == Some(TemplateRoute) <==>
                  (t == "/" || HtmlPage(t)) && !IsAsset(t) && t != "/post.html")
            && (r == Some(PostRoute) ==> t == "/post.html")
  {
    RoutesInOrder(t);
    TemplateRoutes(t);
    assert Matches(AssetRoute, t) == IsAsset(t);
    hide ROUTES, FirstMatch, HtmlPage, Matches, IsAsset;
  }

  /** Without a post, a page is answered exactly to a GET of the root or of an html
      page that is no asset and not the posting page, whose template renders; the
      template lies below the document root and is given no url and no token. */
  lemma PagesAreTemplates(cfg: Config, table: Table, req: Request, env: Env)
    requires Generate.ValidWords(cfg.words) && !PostsTo(req)
    ensures var r := Handle(cfg, table, req, env).response;
            var rendered := env.render(TemplatePath(cfg, req), PageData(cfg.hostname, None, None));
            && r.Some?
            && (r.value.reply.Page? <==>
                  && GuardAccepts(req.target) && req.verb == Get
                  && (req.target == "/" || HtmlPage(req.target))
                  && !IsAsset(req.target) && req.target != "/post.html"
                  && rendered.Rendered?)
            && (r.value.reply.Page? ==>
                  && rendered == Rendered(r.value.reply.html)
                  && LiesBelow(TemplatePath(cfg, req), cfg.docRoot, TemplateNames(req)))
  {
    HandleCases(cfg, table, req, env);
    hide Handle, Dispatch, ROUTES, FirstMatch, TemplatePath, HtmlPage, LiesBelow, TemplateNames, IsAsset;
    if GuardAccepts(req.target) {
      TemplatesLieBelowRoot(cfg, req);
      TemplateSelected(req.target);
      if r :| FirstMatch(ROUTES, req.target) == Some(r) {
        PageDispatch(cfg, table, req, env, r);
      }
    }
  }

  lemma TemplateRoutes(t: string)
    requires t != "" && t[0] == '/'
    ensures Matches(RootRoute, t) || Matches(TemplateRoute, t) <==> t == "/" || HtmlPage(t)
    ensures Matches(PostRoute, t) <==> t == "/post.html"
  {
  }

  lemma OnlyGetPages(cfg: Config, table: Table, req: Request, env: Env)
    requires Generate.ValidWords(cfg.words)
    ensures !HandleFile(cfg, req, env).Page?
    ensures req.target != "" ==> !HandleGetUrl(table, req, env).Page?
    ensures var r := HandlePost(cfg, table, req, env).response;
            req.verb != Post ==> r == Some(Respond(req, BadRequest("Unknown HTTP-method")))
  {
  }
}
