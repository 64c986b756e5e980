// A url's whole way: from a browser's form through the decoder into the table, and
// back over another connection's wire.
module RoundTrip {
  import opened Text
  import opened Shortener
  import opened Session
  import opened Store
  import opened Connections
  import Generate
  import ParseQs

  /** The form a browser posts for a url. */
  function UrlForm(url: string): (ps: seq<ParseQs.Pair>)
    requires ParseQs.IsBytes(url)
    ensures ParseQs.Serializable(ps)
  {
    [ParseQs.Pair("url", url)]
  }

  function PostOf(url: string, version: nat, keepAlive: bool): Request
    requires ParseQs.IsBytes(url)
  {
    Request(Post, "/post.html", version, keepAlive, "application/x-www-form-urlencoded",
            ParseQs.FormText(ParseQs.SerializePairs(UrlForm(url))))
  }

  /** The bytes the serializer writes as an escape of three. */
  function Escapes(s: string): nat {
    if s == "" then 0
    else (if s[0] == ' ' || ParseQs.FormUnreserved(s[0]) then 0 else 1) + Escapes(s[1..])
  }

  lemma {:induction false} EncodedLength(s: string)
    requires ParseQs.IsBytes(s)
    ensures |ParseQs.SymText(ParseQs.PercentEncode(s))| == |s| + 2 * Escapes(s)
  {
    if s != "" {
      EncodedLength(s[1..]);
      assert ParseQs.PercentEncode(s)[1..] == ParseQs.PercentEncode(s[1..]);
    }
  }

  lemma FieldLength(f: ParseQs.Field)
    requires f.Field?
    ensures |ParseQs.FormText([f])| == |ParseQs.SymText(f.key)| + 1 + |ParseQs.SymText(f.value)|
  {
    hide ParseQs.SymText;
    assert ParseQs.FieldTexts([f]) == [f.Text()];
  }

  lemma OneFieldForm(url: string)
    requires ParseQs.IsBytes(url)
    ensures ParseQs.IsBytes("url")
    ensures ParseQs.SerializePairs(UrlForm(url))
         == [ParseQs.Field(ParseQs.PercentEncode("url"), ParseQs.PercentEncode(url))]
  {
    hide ParseQs.PercentEncode, ParseQs.ValidForm;
    assert UrlForm(url)[..0] == [];
  }

  lemma UrlLength()
    ensures ParseQs.IsBytes("url") && |ParseQs.SymText(ParseQs.PercentEncode("url"))| == 3
  {
    EncodedLength("url");
    hide ParseQs.PercentEncode, ParseQs.SymText;
    assert Escapes("url") == 0;
  }

  lemma PostLength(url: string, version: nat, keepAlive: bool)
    requires ParseQs.IsBytes(url)
    ensures |PostOf(url, version, keepAlive).body| == 4 + |url| + 2 * Escapes(url)
  {
    assert PostOf(url, version, keepAlive).body == ParseQs.FormText(ParseQs.SerializePairs(UrlForm(url)));
    hide *;
    OneFieldForm(url);
    UrlLength();
    EncodedLength(url);
    FieldLength(ParseQs.SerializePairs(UrlForm(url))[0]);
  }

  lemma PostOfIsFound(url: string, version: nat, keepAlive: bool, env: Env)
    requires ParseQs.IsBytes(url)
    ensures PostedUrl(PostOf(url, version, keepAlive), env) == Found(url)
  {
    var ps := UrlForm(url);
    hide ParseQs.FormText, ParseQs.SerializePairs, ParseQs.Parsed;
    ParseQs.StandardFormRoundTrip(ps, MAX_PARAMS);
    assert ps[..0] == [];
    assert ParseQs.TakenPairs(ps) == map["url" := url];
  }

  /** What the environment has to grant a post and the table has to lack. */
  ghost predicate Grants(cfg: Config, table: Table, url: string, env: Env)
    requires Generate.ValidWords(cfg.words)
  {
    && env.prepareOk && env.bindTokenOk && env.bindUrlOk && env.stepOk
    && Generate.Token(cfg.words, env.stream) !in table
    && CStr(url) !in table.Values
  }

  /** A url posted the standard way is stored exactly when it has an http or https
      prefix, SQLite agrees, and neither it nor the token is stored already. */
  lemma PostIsStoredIff(cfg: Config, table: Table, url: string, version: nat, keepAlive: bool, env: Env)
    requires Generate.ValidWords(cfg.words) && ParseQs.IsBytes(url)
    ensures Stores(cfg, table, PostOf(url, version, keepAlive), env)
            <==> HttpPrefix(url) && Grants(cfg, table, url, env)
  {
    hide HttpPrefix, PostedUrl, Generate.Token, ParseQs.FormText, ParseQs.SerializePairs;
    PostOfIsFound(url, version, keepAlive, env);
  }

  /** A run may go on with any step its last state allows. */
  lemma OneMore(cfg: Config, ss: seq<System>, acts: seq<Action>, a: Action)
    requires Executes(cfg, ss, acts) && CanAct(cfg, ss[|acts|], a)
    ensures Executes(cfg, ss + [Act(cfg, ss[|acts|], a)], acts + [a])
  {
    hide CanAct, Act, StoreInv, Generate.ValidWords;
    var ss', acts' := ss + [Act(cfg, ss[|acts|], a)], acts + [a];
    forall i | 0 <= i < |acts'|
      ensures CanAct(cfg, ss'[i], acts'[i]) && ss'[i + 1] == Act(cfg, ss'[i], acts'[i])
    {
      assert ss'[i] == ss[i];
    }
  }

  lemma StoringPost(cfg: Config, table: Table, post: Request, env: Env)
    requires Generate.ValidWords(cfg.words) && StoreInv(cfg.words, table) && Stores(cfg, table, post, env)
    ensures PostedUrl(post, env).Found? && Handle(cfg, table, post, env).response.Some?
    ensures var table' := table[Generate.Token(cfg.words, env.stream) := CStr(PostedUrl(post, env).url)];
            Handle(cfg, table, post, env).table == table' && StoreInv(cfg.words, table')
  {
    hide PostedUrl, Generate.Token, Handle, HttpPrefix, RenderReply, StoreInv;
    HandleOfPost(cfg, table, post, env);
    TableAfterRequest(cfg, table, post, env);
    RequestKeepsStore(cfg, table, post, env);
  }

  /** A connection is accepted and its post handled. */
  lemma PostRun(cfg: Config, table: Table, post: Request, penv: Env) returns (ss: seq<System>, acts: seq<Action>)
    requires Generate.ValidWords(cfg.words) && StoreInv(cfg.words, table)
    requires Stores(cfg, table, post, penv) && |post.body| <= BODY_LIMIT
    ensures Executes(cfg, ss, acts) && ss[0].table == table
    ensures |acts| == 2 && acts[1] == Receive(0, post, penv)
    ensures ss[2].table == table[Generate.Token(cfg.words, penv.stream) := CStr(PostedUrl(post, penv).url)]
    ensures 1 !in ss[2].conns
  {
    hide Stores, StoreInv, Handle, PostedUrl, Generate.Token, Generate.ValidWords, Next, CStr;
    StoringPost(cfg, table, post, penv);
    var s0 := System(table, map[]);
    assert Executes(cfg, [s0], []);
    var a0, a1 := Accept(0, Plain), Receive(0, post, penv);
    OneMore(cfg, [s0], [], a0);
    var s1 := Act(cfg, s0, a0);
    assert [s0] + [s1] == [s0, s1] && [] + [a0] == [a0];
    OneMore(cfg, [s0, s1], [a0], a1);
    ss, acts := [s0, s1] + [Act(cfg, s1, a1)], [a0] + [a1];
  }

  /** A second connection is accepted, its get handled and the answer written. */
  lemma GetRun(cfg: Config, ss: seq<System>, acts: seq<Action>, get: Request, env: Env, answer: Response)
    returns (ss': seq<System>, acts': seq<Action>)
    requires Executes(cfg, ss, acts) && 1 !in ss[|acts|].conns && |get.body| <= BODY_LIMIT
    requires Handle(cfg, ss[|acts|].table, get, env).response == Some(answer)
    ensures Executes(cfg, ss', acts')
    ensures |acts'| == |acts| + 3 && acts == acts'[..|acts|] && acts'[|acts| + 1] == Receive(1, get, env)
    ensures ss == ss'[..|ss|]
    ensures 1 in ss'[|acts| + 1].conns && ss'[|acts| + 1].conns[1].requests == []
    ensures 1 in ss'[|acts'|].conns && ss'[|acts'|].conns[1].written == [answer]
  {
    FirstAnswerIsWritten(get, answer);
    hide Executes, Handle, Generate.ValidWords, Next, Enabled, Started;
    assert |ss| == |acts| + 1 && Generate.ValidWords(cfg.words) by { ValidRun(cfg, ss, acts); }
    var s2 := ss[|acts|];
    var a2, a3, a4 := Accept(1, Plain), Receive(1, get, env), Complete(1, WriteOk);
    OneMore(cfg, ss, acts, a2);
    var s3 := Act(cfg, s2, a2);
    OneMore(cfg, ss + [s3], acts + [a2], a3);
    var s4 := Act(cfg, s3, a3);
    OneMore(cfg, ss + [s3] + [s4], acts + [a2] + [a3], a4);
    ss', acts' := ss + [s3] + [s4] + [Act(cfg, s4, a4)], acts + [a2] + [a3] + [a4];
  }

  /** Some run of the server from this table handles the post on one connection and
      later the get on another, and writes the answer in the get's place there. */
  ghost predicate IsAnswered(
    cfg: Config, table: Table, post: Request, penv: Env, get: Request, genv: Env, answer: Response) {
    exists ss: seq<System>, acts: seq<Action>, i: nat, j: nat ::
      Executes(cfg, ss, acts) && ss[0].table == table && Answers(ss, acts, i, j, post, penv, get, genv, answer)
  }

  ghost predicate Answers(
    ss: seq<System>, acts: seq<Action>, i: nat, j: nat,
    post: Request, penv: Env, get: Request, genv: Env, answer: Response) {
    && i < j < |acts| && |ss| == |acts| + 1
    && acts[i].Receive? && acts[i].req == post && acts[i].env == penv
    && acts[j].Receive? && acts[j].req == get && acts[j].env == genv && acts[j].c != acts[i].c
    && acts[j].c in ss[j].conns && acts[j].c in ss[|acts|].conns
    && var k, written := |ss[j].conns[acts[j].c].requests|, ss[|acts|].conns[acts[j].c].written;
       k < |written| && written[k] == answer
  }

  /** Such a run exists for a post that is stored and a get of its token exactly when
      both bodies are short enough to be read. */
  lemma PostThenGet(cfg: Config, table: Table, post: Request, penv: Env, get: Request, genv: Env)
    requires Generate.ValidWords(cfg.words) && StoreInv(cfg.words, table)
    requires Stores(cfg, table, post, penv)
    requires get.verb == Get && get.target == "/" + Generate.Token(cfg.words, penv.stream)
    requires genv.prepareOk && genv.bindTokenOk && genv.stepOk
    ensures IsAnswered(cfg, table, post, penv, get, genv, Respond(get, Redirect(CStr(PostedUrl(post, penv).url))))
            <==> |post.body| <= BODY_LIMIT && |get.body| <= BODY_LIMIT
  {
    assert PostedUrl(post, penv).Found?;
    hide Stores, StoreInv, Handle, PostedUrl, Generate.Token, Generate.ValidWords, Respond;
    var answer := Respond(get, Redirect(CStr(PostedUrl(post, penv).url)));
    if IsAnswered(cfg, table, post, penv, get, genv, answer) {
      BodiesAreRead(cfg, table, post, penv, get, genv, answer);
    }
    if |post.body| <= BODY_LIMIT && |get.body| <= BODY_LIMIT {
      hide Executes, Answers;
      var ss, acts := PostGetRun(cfg, table, post, penv, get, genv);
      assert Answers(ss, acts, 1, 3, post, penv, get, genv, answer);
    }
  }

  lemma BodiesAreRead(
    cfg: Config, table: Table, post: Request, penv: Env, get: Request, genv: Env, answer: Response)
    requires IsAnswered(cfg, table, post, penv, get, genv, answer)
    ensures |post.body| <= BODY_LIMIT && |get.body| <= BODY_LIMIT
  {
    hide StoreInv, Handle, Generate.ValidWords;
    var ss: seq<System>, acts: seq<Action>, i: nat, j: nat :| Executes(cfg, ss, acts) && ss[0].table == table
                          && Answers(ss, acts, i, j, post, penv, get, genv, answer);
    assert CanAct(cfg, ss[i], acts[i]) && CanAct(cfg, ss[j], acts[j]);
  }

  lemma PostGetRun(cfg: Config, table: Table, post: Request, penv: Env, get: Request, genv: Env)
    returns (ss: seq<System>, acts: seq<Action>)
    requires Generate.ValidWords(cfg.words) && StoreInv(cfg.words, table)
    requires Stores(cfg, table, post, penv) && |post.body| <= BODY_LIMIT
    requires get.verb == Get && get.target == "/" + Generate.Token(cfg.words, penv.stream) && |get.body| <= BODY_LIMIT
    requires genv.prepareOk && genv.bindTokenOk && genv.stepOk
    ensures Executes(cfg, ss, acts) && ss[0].table == table
    ensures Answers(ss, acts, 1, 3, post, penv, get, genv, Respond(get, Redirect(CStr(PostedUrl(post, penv).url))))
  {
    hide Executes, Stores, StoreInv, Handle, PostedUrl, Generate.Token, Generate.ValidWords, Respond, CStr;
    StoringPost(cfg, table, post, penv);
    var t, u := Generate.Token(cfg.words, penv.stream), CStr(PostedUrl(post, penv).url);
    ss, acts := PostRun(cfg, table, post, penv);
    ValidRun(cfg, ss, acts);
    StoredTokenRedirects(cfg, ss[2].table, t, get, genv);
    ss, acts := GetRun(cfg, ss, acts, get, genv, Respond(get, Redirect(u)));
    ValidRun(cfg, ss, acts);
  }

  lemma FirstAnswerIsWritten(req: Request, answer: Response)
    requires |req.body| <= BODY_LIMIT
    ensures var s := Started(Plain);
            && Enabled(s, ReadOk(req, answer))
            && var s1 := Next(s, ReadOk(req, answer));
               Enabled(s1, WriteOk) && Next(s1, WriteOk).written == [answer]
  {
  }

  /** A url that is posted with the standard form encoding and stored comes back as the
      value given to the Location field, up to its first NUL, when its token is asked for
      on another connection: exactly when its encoding is short enough to be read. */
  lemma UrlComesBackIff(
    cfg: Config, table: Table, url: string, version: nat, keepAlive: bool, penv: Env, get: Request, genv: Env)
    requires Generate.ValidWords(cfg.words) && StoreInv(cfg.words, table)
    requires ParseQs.IsBytes(url) && HttpPrefix(url) && Grants(cfg, table, url, penv)
    requires get.verb == Get && get.target == "/" + Generate.Token(cfg.words, penv.stream)
    requires genv.prepareOk && genv.bindTokenOk && genv.stepOk
    ensures IsAnswered(cfg, table, PostOf(url, version, keepAlive), penv, get, genv, Respond(get, Redirect(CStr(url))))
            <==> 4 + |url| + 2 * Escapes(url) <= 10000 && |get.body| <= 10000
  {
    hide Stores, Grants, PostedUrl, IsAnswered, StoreInv, HttpPrefix, PostOf, ParseQs.IsBytes, Escapes;
    PostIsStoredIff(cfg, table, url, version, keepAlive, penv);
    PostOfIsFound(url, version, keepAlive, penv);
    PostLength(url, version, keepAlive);
    PostThenGet(cfg, table, PostOf(url, version, keepAlive), penv, get, genv);
  }

  const TWO_LINES := "http://a\r\nb"

  lemma TwoLines()
    ensures ParseQs.IsBytes(TWO_LINES) && HttpPrefix(TWO_LINES) && !OneLine(TWO_LINES)
    ensures CStr(TWO_LINES) == TWO_LINES && |TWO_LINES| == 11
  {
    assert TWO_LINES[8] == '\r';
    assert StartsWith(TWO_LINES, "http://");
  }

  lemma {:induction false} EscapesBound(s: string)
    ensures Escapes(s) <= |s|
  {
    if s != "" {
      EscapesBound(s[1..]);
    }
  }

  /** A line break in a url is stored and given back with it, so that a Location need
      not be on one line. */
  lemma LineBreakComesBack(cfg: Config, version: nat, keepAlive: bool, penv: Env, get: Request, genv: Env)
    requires Generate.ValidWords(cfg.words)
    requires penv.prepareOk && penv.bindTokenOk && penv.bindUrlOk && penv.stepOk
    requires get.verb == Get && get.target == "/" + Generate.Token(cfg.words, penv.stream) && get.body == ""
    requires genv.prepareOk && genv.bindTokenOk && genv.stepOk
    ensures ParseQs.IsBytes(TWO_LINES) && !OneLine(TWO_LINES)
    ensures IsAnswered(cfg, map[], PostOf(TWO_LINES, version, keepAlive), penv, get, genv,
                       Respond(get, Redirect(TWO_LINES)))
  {
    TwoLines();
    EscapesBound(TWO_LINES);
    hide IsAnswered, PostOf, Escapes, Generate.ValidWords, HttpPrefix, CStr, TWO_LINES, Generate.Token;
    assert StoreInv(cfg.words, map[]);
    UrlComesBackIff(cfg, map[], TWO_LINES, version, keepAlive, penv, get, genv);
  }

  // ---- A post behind a closing request -----------------------------------------------------

  lemma TwoAnswers(bye: Request, post: Request, first: Response, second: Response)
    requires |bye.body| <= BODY_LIMIT && |post.body| <= BODY_LIMIT && first.needEof
    ensures var s1 := Next(Started(Plain), ReadOk(bye, first));
            && s1.reading
            && var s2 := Next(s1, ReadOk(post, second));
               && Enabled(s2, WriteOk)
               && var s3 := Next(s2, WriteOk);
                  s3.written == [first] && s3.answers == [first, second] && s3.stop.Closed?
  {
  }

  lemma ByeAnswers(cfg: Config, table: Table, bye: Request, env: Env) returns (first: Response)
    requires Generate.ValidWords(cfg.words) && Closes(bye, env) && !PostsTo(bye)
    ensures Handle(cfg, table, bye, env) == Outcome(table, Some(first)) && first.needEof
  {
    HandleOfPost(cfg, table, bye, env);
    AnswerClosesIff(cfg, table, bye, env);
    first := Handle(cfg, table, bye, env).response.value;
  }

  /** After a request that closes its connection, a post on it is still handled: its url is
      stored, and what is written is the answer to the first request, and the end. */
  lemma PostBehindCloseIsStored(cfg: Config, table: Table, bye: Request, benv: Env, post: Request, penv: Env)
    returns (ss: seq<System>, acts: seq<Action>)
    requires Generate.ValidWords(cfg.words) && StoreInv(cfg.words, table)
    requires Closes(bye, benv) && !PostsTo(bye) && |bye.body| <= BODY_LIMIT
    requires Stores(cfg, table, post, penv) && |post.body| <= BODY_LIMIT
    ensures Executes(cfg, ss, acts) && ss[0].table == table
    ensures acts == [Accept(0, Plain), Receive(0, bye, benv), Receive(0, post, penv), Complete(0, WriteOk)]
    ensures ss[4].table == table[Generate.Token(cfg.words, penv.stream) := CStr(PostedUrl(post, penv).url)]
    ensures 0 in ss[4].conns && ss[4].conns[0].stop.Closed?
    ensures |ss[4].conns[0].written| == 1 && |ss[4].conns[0].answers| == 2
  {
    hide Stores, StoreInv, Handle, PostedUrl, Generate.Token, Generate.ValidWords, Next, Enabled, CStr, Closes, PostsTo;
    var first := ByeAnswers(cfg, table, bye, benv);
    StoringPost(cfg, table, post, penv);
    TwoAnswers(bye, post, first, Handle(cfg, table, post, penv).response.value);
    var s0 := System(table, map[]);
    var a0, a1, a2, a3 := Accept(0, Plain), Receive(0, bye, benv), Receive(0, post, penv), Complete(0, WriteOk);
    assert Executes(cfg, [s0], []);
    hide Executes;
    OneMore(cfg, [s0], [], a0);
    var s1 := Act(cfg, s0, a0);
    OneMore(cfg, [s0] + [s1], [] + [a0], a1);
    var s2 := Act(cfg, s1, a1);
    OneMore(cfg, [s0] + [s1] + [s2], [] + [a0] + [a1], a2);
    var s3 := Act(cfg, s2, a2);
    OneMore(cfg, [s0] + [s1] + [s2] + [s3], [] + [a0] + [a1] + [a2], a3);
    ss, acts := [s0] + [s1] + [s2] + [s3] + [Act(cfg, s3, a3)], [] + [a0] + [a1] + [a2] + [a3];
  }
}
