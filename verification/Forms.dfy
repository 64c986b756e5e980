// One form posted either way: urlencoded lookup and the scan over multipart
// sections.
module Forms {
  import opened Text
  import opened Shortener
  import opened Store
  import ParseQs
  import Multipart
  import Generate

  // ---- Urlencoded: the last url ---------------------------------------------------------

  /** Values of the fields whose key is "url", in order. */
  function UrlValues(fs: seq<ParseQs.Field>): seq<string>
    requires ParseQs.ValidForm(fs)
  {
    if fs == [] then []
    else UrlValues(fs[..|fs| - 1]) + if fs[|fs| - 1].Key() == "url" then [fs[|fs| - 1].Value()] else []
  }

  lemma NamedFieldIsTaken(m: ParseQs.QueryMap, f: ParseQs.Field)
    requires f.Valid()
    ensures f.Key() == "url" ==> ParseQs.AssignField(m, f) == m["url" := f.Value()]
    ensures f.Key() != "url" ==>
              var m' := ParseQs.AssignField(m, f);
              ("url" in m' <==> "url" in m) && ("url" in m ==> m'["url"] == m["url"])
  {
    ParseQs.DecodeNothing();
    hide ParseQs.Legal, ParseQs.SymText, ParseQs.SymMeaning;
  }

  lemma LastUrlOneMore(m: ParseQs.QueryMap, us: seq<string>, f: ParseQs.Field)
    requires f.Valid()
    requires ("url" in m <==> us != []) && (us != [] ==> m["url"] == us[|us| - 1])
    ensures var m', us' := ParseQs.AssignField(m, f), us + if f.Key() == "url" then [f.Value()] else [];
            ("url" in m' <==> us' != []) && (us' != [] ==> m'["url"] == us'[|us'| - 1])
  {
    hide ParseQs.Field.Valid, ParseQs.Field.Key, ParseQs.Field.Value, ParseQs.AssignField;
    NamedFieldIsTaken(m, f);
  }

  lemma {:induction false} LastWinsLookup(fs: seq<ParseQs.Field>)
    requires ParseQs.ValidForm(fs)
    ensures var m, us := ParseQs.LastWins(fs), UrlValues(fs);
            ("url" in m <==> us != []) && (us != [] ==> m["url"] == us[|us| - 1])
  {
    hide ParseQs.Field.Valid, ParseQs.Field.Key, ParseQs.Field.Value, ParseQs.AssignField;
    if fs != [] {
      LastWinsLookup(fs[..|fs| - 1]);
      LastUrlOneMore(ParseQs.LastWins(fs[..|fs| - 1]), UrlValues(fs[..|fs| - 1]), fs[|fs| - 1]);
    }
  }

  /** Urlencoded lookup takes the form's last url. */
  lemma UrlEncodedTakesLast(fs: seq<ParseQs.Field>)
    requires ParseQs.ValidForm(fs)
    ensures var us := UrlValues(fs);
            UrlEncodedUrl(ParseQs.FormText(fs)) ==
            if |fs| > MAX_PARAMS + 1 then Thrown
            else if us == [] then Rejected("No URL parameter passed")
            else Found(us[|us| - 1])
  {
    ParseQs.FormRoundTrip(fs, MAX_PARAMS);
    LastWinsLookup(fs);
    hide UrlValues, ParseQs.LastWins, ParseQs.ValidForm, ParseQs.FormText, ParseQs.Parsed;
  }

  // ---- Multipart: the first chunk of the first url --------------------------------------

  /** The name a part's own headers give it. */
  function HeaderName(hs: seq<Multipart.Header>): Option<string> {
    FieldName(Multipart.Section(Multipart.HeaderMap(hs), ""))
  }

  /** Section 4.2 of RFC 7578: every part has this header. */
  predicate Disposed(ps: seq<Multipart.Part>) {
    forall i | 0 <= i < |ps| :: "Content-Disposition" in Multipart.HeaderMap(ps[i].headers)
  }

  /** The first chunks of the parts named "url" that have one. */
  function UrlChunks(ps: seq<Multipart.Part>): seq<string> {
    if ps == [] then []
    else
      var p := ps[|ps| - 1];
      UrlChunks(ps[..|ps| - 1]) + if HeaderName(p.headers) == Some("url") && p.chunks != [] then [p.chunks[0]] else []
  }

  predicate HasUrl(ss: seq<Multipart.Section>) {
    exists i :: 0 <= i < |ss| && FieldName(ss[i]) == Some("url")
  }

  lemma {:induction false} FirstUrlAppend(ss: seq<Multipart.Section>, s: Multipart.Section)
    ensures HasUrl(ss + [s]) <==> HasUrl(ss) || FieldName(s) == Some("url")
    ensures FirstUrl(ss + [s]) ==
            if HasUrl(ss) then FirstUrl(ss) else if FieldName(s) == Some("url") then s.data else ""
  {
    hide FieldName;
    var all := ss + [s];
    assert all[|ss|] == s && forall i :: 0 <= i < |ss| ==> all[i] == ss[i];
    if ss == [] {
      assert all[1..] == [];
    } else {
      assert all[1..] == ss[1..] + [s];
      FirstUrlAppend(ss[1..], s);
      assert forall i :: 1 <= i < |ss| ==> ss[i] == ss[1..][i - 1];
    }
  }

  lemma ChunkName(left: Multipart.Headers, hs: seq<Multipart.Header>, data: string)
    requires "Content-Disposition" in Multipart.HeaderMap(hs)
    ensures FieldName(Multipart.Section(left + Multipart.HeaderMap(hs), data)) == HeaderName(hs)
    ensures FieldName(Multipart.Section(map[], data)) == None
  {
    hide Multipart.HeaderMap;
  }

  /** The sections of one part: the first is named as the part is, whatever headers
      were left over, and further ones have no name. */
  lemma {:induction false} FirstUrlOfPart(
    ss: seq<Multipart.Section>, left: Multipart.Headers, hs: seq<Multipart.Header>, cs: seq<string>)
    requires "Content-Disposition" in Multipart.HeaderMap(hs)
    ensures var all := ss + Multipart.ChunkSections(left + Multipart.HeaderMap(hs), cs);
            var here := HeaderName(hs) == Some("url") && cs != [];
            && (HasUrl(all) <==> HasUrl(ss) || here)
            && FirstUrl(all) == if HasUrl(ss) then FirstUrl(ss) else if here then cs[0] else ""
  {
    hide FieldName, HasUrl, FirstUrl, HeaderName, Multipart.HeaderMap, Multipart.ChunkSections;
    var headers := left + Multipart.HeaderMap(hs);
    if cs == [] {
      assert ss + Multipart.ChunkSections(headers, cs) == ss;
      NoUrlNoData(ss);
    } else {
      var n := |cs| - 1;
      var front, s := Multipart.ChunkSections(headers, cs[..n]),
                      Multipart.Section(if n == 0 then headers else map[], cs[n]);
      FirstUrlOfPart(ss, left, hs, cs[..n]);
      Multipart.ChunkSectionsSnoc(headers, cs);
      ChunkName(left, hs, cs[n]);
      assert ss + (front + [s]) == (ss + front) + [s];
      FirstUrlAppend(ss + front, s);
    }
  }

  lemma {:induction false} NoUrlNoData(ss: seq<Multipart.Section>)
    ensures !HasUrl(ss) ==> FirstUrl(ss) == ""
  {
    hide FieldName;
    if ss != [] && !HasUrl(ss) {
      assert FieldName(ss[0]) != Some("url");
      assert forall i | 0 <= i < |ss[1..]| :: ss[1..][i] == ss[i + 1];
      NoUrlNoData(ss[1..]);
    }
  }

  lemma DisposedSplits(ps: seq<Multipart.Part>)
    requires Disposed(ps) && ps != []
    ensures Disposed(ps[..|ps| - 1]) && "Content-Disposition" in Multipart.HeaderMap(ps[|ps| - 1].headers)
  {
    hide Multipart.HeaderMap;
  }

  lemma {:induction false} FirstUrlScan(ps: seq<Multipart.Part>)
    requires Disposed(ps)
    ensures var ss, cs := Multipart.Sections(ps), UrlChunks(ps);
            && (cs != [] <==> HasUrl(ss))
            && FirstUrl(ss) == if cs == [] then "" else cs[0]
  {
    hide Multipart.FeedAll, Multipart.PartTrace, Multipart.HeaderMap, Disposed, HeaderName, FieldName;
    if ps == [] {
      EmptyForm();
    } else {
      var front, p := ps[..|ps| - 1], ps[|ps| - 1];
      var a := Multipart.FeedAll(Multipart.EMPTY, Multipart.FormTrace(front));
      DisposedSplits(ps);
      FirstUrlScan(front);
      Multipart.FeedForm(ps);
      Multipart.FeedPart(a, p);
      hide HasUrl, FirstUrl, Multipart.FormTrace, Multipart.ChunkSections;
      FirstUrlOfPart(a.sections, a.headers, p.headers, p.chunks);
    }
  }

  lemma EmptyForm()
    ensures Multipart.Sections([]) == []
  {
  }

  /** A multipart request whose parser delivers exactly these parts. */
  predicate Delivers(contentType: string, body: string, env: Env, ps: seq<Multipart.Part>) {
    var params := Multipart.HeaderParams(contentType);
    && StartsWith(contentType, "multipart/form-data")
    && "boundary" in params && params["boundary"].Some? && params["boundary"].value != ""
    && env.parser(CStr(params["boundary"].value), TrimRight(body)) == Multipart.FormTrace(ps)
  }

  /** The scan over multipart sections takes the first chunk that a part named url has,
      and takes an empty one for none. */
  lemma MultipartTakesFirst(contentType: string, body: string, env: Env, ps: seq<Multipart.Part>)
    requires Disposed(ps) && Delivers(contentType, body, env, ps)
    ensures var cs := UrlChunks(ps);
            MultipartUrl(contentType, body, env) ==
            if cs == [] || cs[0] == "" then Rejected("No URL specified") else Found(cs[0])
  {
    FirstUrlScan(ps);
    hide UrlChunks, Disposed, HasUrl, FirstUrl, Multipart.FormTrace, Multipart.FeedAll;
    hide Multipart.HeaderParams, TrimRight;
  }

  /** What comes after the first chunk of a url is lost. */
  lemma SecondChunkIsLost(
    hs: seq<Multipart.Header>, first: string, second: string, contentType: string, body: string, env: Env)
    requires HeaderName(hs) == Some("url") && first != ""
    requires Delivers(contentType, body, env, [Multipart.Part(hs, [first, second])])
    ensures MultipartUrl(contentType, body, env) == Found(first)
  {
    var ps := [Multipart.Part(hs, [first, second])];
    assert ps[..0] == [] && Disposed(ps) && UrlChunks(ps) == [first];
    hide Delivers, UrlChunks, MultipartUrl, HeaderName, Disposed;
    MultipartTakesFirst(contentType, body, env, ps);
  }

  // ---- Both -------------------------------------------------------------------------------

  /** A part that carries a field, in any number of chunks. */
  predicate Presents(p: Multipart.Part, f: ParseQs.Field)
    requires f.Valid()
  {
    HeaderName(p.headers) == Some(f.Key()) && Multipart.Concat(p.chunks) == f.Value()
  }

  predicate PresentsForm(ps: seq<Multipart.Part>, fs: seq<ParseQs.Field>)
    requires ParseQs.ValidForm(fs)
  {
    |ps| == |fs| && forall i | 0 <= i < |fs| :: Presents(ps[i], fs[i])
  }

  lemma PresentedAreDisposed(ps: seq<Multipart.Part>, fs: seq<ParseQs.Field>)
    requires ParseQs.ValidForm(fs) && PresentsForm(ps, fs)
    ensures Disposed(ps)
  {
    hide Multipart.HeaderMap, ParseQs.Field.Valid, ParseQs.Field.Key, ParseQs.Field.Value;
    forall i | 0 <= i < |ps| ensures "Content-Disposition" in Multipart.HeaderMap(ps[i].headers) {
      assert Presents(ps[i], fs[i]);
    }
  }

  lemma FormSplits(ps: seq<Multipart.Part>, fs: seq<ParseQs.Field>)
    requires ParseQs.ValidForm(fs) && PresentsForm(ps, fs) && fs != []
    ensures var n := |fs| - 1;
            && |ps| == |fs| && fs[n].Valid() && Presents(ps[n], fs[n])
            && ParseQs.ValidForm(fs[..n]) && PresentsForm(ps[..n], fs[..n])
            && UrlValues(fs) == UrlValues(fs[..n]) + if fs[n].Key() == "url" then [fs[n].Value()] else []
  {
    hide Presents, ParseQs.Field.Valid, ParseQs.Field.Key, ParseQs.Field.Value;
  }

  /** With one chunk for each part nothing is lost. */
  lemma {:induction false} OneChunkUrls(ps: seq<Multipart.Part>, fs: seq<ParseQs.Field>)
    requires ParseQs.ValidForm(fs) && PresentsForm(ps, fs) && Multipart.OneChunkEach(ps)
    ensures UrlChunks(ps) == UrlValues(fs)
  {
    if fs != [] {
      var n := |fs| - 1;
      FormSplits(ps, fs);
      OneChunkUrls(ps[..n], fs[..n]);
      Multipart.ConcatOne(ps[n].chunks);
      hide UrlValues, PresentsForm, HeaderName, Multipart.Concat;
      hide ParseQs.Field.Valid, ParseQs.Field.Key, ParseQs.Field.Value;
    } else {
      assert ps == [];
    }
  }

  /** When both encodings of a form find the same url: it is not too long, the first
      chunk of its first url part is its last url, and that is not empty. */
  predicate Alike(fs: seq<ParseQs.Field>, ps: seq<Multipart.Part>)
    requires ParseQs.ValidForm(fs)
  {
    var us, cs := UrlValues(fs), UrlChunks(ps);
    |fs| <= MAX_PARAMS + 1 && us != [] && cs != [] && cs[0] == us[|us| - 1] && cs[0] != ""
  }

  lemma EncodingsAgreeIff(
    fs: seq<ParseQs.Field>, contentType: string, body: string, env: Env, ps: seq<Multipart.Part>)
    requires ParseQs.ValidForm(fs) && PresentsForm(ps, fs) && Delivers(contentType, body, env, ps)
    ensures UrlEncodedUrl(ParseQs.FormText(fs)) == MultipartUrl(contentType, body, env) <==> Alike(fs, ps)
  {
    PresentedAreDisposed(ps, fs);
    UrlEncodedTakesLast(fs);
    MultipartTakesFirst(contentType, body, env, ps);
    MessagesDiffer();
    hide Disposed, Delivers, PresentsForm, UrlEncodedUrl, MultipartUrl, UrlValues, UrlChunks, ParseQs.FormText;
    hide ParseQs.ValidForm;
  }

  lemma MessagesDiffer()
    ensures "No URL parameter passed" != "No URL specified"
  {
    assert "No URL parameter passed"[7] == 'p';
  }

  lemma SameUrlSamePost(cfg: Config, table: Table, env: Env, a: Request, b: Request)
    requires Generate.ValidWords(cfg.words)
    requires PostedUrl(a, env) == PostedUrl(b, env)
    requires b == a.(contentType := b.contentType, body := b.body)
    ensures HandlePost(cfg, table, a, env) == HandlePost(cfg, table, b, env)
  {
    hide PostedUrl, Generate.Token, HttpPrefix, Insert;
  }

  lemma MultipartIsNotUrlEncoded(contentType: string)
    requires StartsWith(contentType, "multipart/form-data")
    ensures contentType != "application/x-www-form-urlencoded"
  {
    assert contentType[0] == 'm';
  }

  /** Requests that post a form, urlencoded and as multipart. */
  ghost predicate PostsBothWays(
    plain: Request, multi: Request, fs: seq<ParseQs.Field>, ps: seq<Multipart.Part>, env: Env) {
    && ParseQs.ValidForm(fs) && PresentsForm(ps, fs) && Delivers(multi.contentType, multi.body, env, ps)
    && plain.contentType == "application/x-www-form-urlencoded" && plain.body == ParseQs.FormText(fs)
    && multi == plain.(contentType := multi.contentType, body := multi.body)
  }

  lemma PostedUrlsAgreeIff(
    plain: Request, multi: Request, fs: seq<ParseQs.Field>, ps: seq<Multipart.Part>, env: Env)
    requires PostsBothWays(plain, multi, fs, ps, env)
    ensures PostedUrl(plain, env) == PostedUrl(multi, env) <==> Alike(fs, ps)
  {
    assert StartsWith(multi.contentType, "multipart/form-data");
    EncodingsAgreeIff(fs, multi.contentType, multi.body, env, ps);
    hide PresentsForm, Delivers, Alike, UrlEncodedUrl, MultipartUrl, StartsWith;
    hide ParseQs.ValidForm, ParseQs.FormText;
    MultipartIsNotUrlEncoded(multi.contentType);
  }

  /** And then the form does the same to the table and gets the same response whichever
      way it is posted. */
  lemma PostIndependentOfEncoding(
    cfg: Config, table: Table, env: Env, fs: seq<ParseQs.Field>, ps: seq<Multipart.Part>,
    plain: Request, multi: Request)
    requires Generate.ValidWords(cfg.words)
    requires PostsBothWays(plain, multi, fs, ps, env) && Alike(fs, ps)
    ensures HandlePost(cfg, table, plain, env) == HandlePost(cfg, table, multi, env)
  {
    assert multi == plain.(contentType := multi.contentType, body := multi.body);
    hide PostsBothWays, Alike, PostedUrl, HandlePost, Generate.ValidWords, ParseQs.ValidForm;
    PostedUrlsAgreeIff(plain, multi, fs, ps, env);
    SameUrlSamePost(cfg, table, env, plain, multi);
  }

  // ---- The part a browser sends for a field -----------------------------------------------

  /** Section 5.6.4 of RFC 9110: quotes and backslashes are escaped. */
  function QuoteChars(s: string): (qs: seq<Multipart.QChar>)
    ensures |qs| == |s|
    ensures ';' !in s ==> forall i :: 0 <= i < |qs| ==> qs[i].Legal()
  {
    if s == "" then []
    else [if s[0] == '"' || s[0] == '\\' then Multipart.Pair(s[0]) else Multipart.Literal(s[0])] + QuoteChars(s[1..])
  }

  lemma {:induction false} QuoteCharsMeaning(s: string)
    ensures Multipart.QMeaning(QuoteChars(s)) == s
  {
    if s != "" {
      QuoteCharsMeaning(s[1..]);
      assert QuoteChars(s)[1..] == QuoteChars(s[1..]);
    }
  }

  function Disposition(name: string): string {
    Multipart.HeaderText([
      Multipart.Alone("", "form-data"),
      Multipart.Quoted(" ", "name", QuoteChars(name), "")])
  }

  /** The name that is read back from the header that gives it. */
  function NameRead(name: string): Option<string> {
    HeaderName([Multipart.Header("Content-Disposition", Disposition(name))])
  }

  lemma NameIsLookedUp(name: string)
    ensures var params := Multipart.HeaderParams(Disposition(name));
            NameRead(name) == if "name" in params then params["name"] else None
  {
    hide Disposition, Multipart.HeaderParams;
    var h := Multipart.Header("Content-Disposition", Disposition(name));
    assert [h][..0] == [];
    assert Multipart.HeaderMap([h]) == map["Content-Disposition" := Multipart.Parsed(Disposition(name))];
  }

  lemma DispositionParams(name: string)
    requires ';' !in name
    ensures var params := Multipart.HeaderParams(Disposition(name));
            "name" in params && params["name"] == Some(name)
  {
    var ps := [Multipart.Alone("", "form-data"), Multipart.Quoted(" ", "name", QuoteChars(name), "")];
    assert ps[0].Valid() && ps[1].Valid();
    Multipart.HeaderRoundTrip(ps);
    QuoteCharsMeaning(name);
    hide QuoteChars, Multipart.QMeaning, Multipart.HeaderParams, Multipart.HeaderText;
    assert ps[1].key == "name" && ps[1].Meaning() == Some(name);
  }

  /** `Content-Disposition: form-data; name="..."` names the field exactly when the name
      has no semicolon: headers are split there even inside quotes. */
  lemma DispositionNamesField(name: string)
    ensures NameRead(name) == Some(name) <==> ';' !in name
  {
    NameIsLookedUp(name);
    Multipart.HeaderValuesHaveNoSemicolon(Disposition(name));
    hide NameRead, Disposition, Multipart.HeaderParams;
    if ';' !in name {
      DispositionParams(name);
    }
  }

  lemma QuoteSplits(s: string)
    requires s != ""
    ensures Multipart.QText(QuoteChars(s)) == QuoteChars(s)[0].Text() + Multipart.QText(QuoteChars(s[1..]))
  {
    assert QuoteChars(s)[1..] == QuoteChars(s[1..]);
  }

  lemma {:induction false} QuoteConcat(s: string, t: string)
    ensures Multipart.QText(QuoteChars(s + t)) == Multipart.QText(QuoteChars(s)) + Multipart.QText(QuoteChars(t))
  {
    if s == "" {
      assert s + t == t;
    } else {
      assert (s + t)[1..] == s[1..] + t && QuoteChars(s + t)[0] == QuoteChars(s)[0];
      QuoteSplits(s);
      QuoteSplits(s + t);
      hide QuoteChars, Multipart.QText, Multipart.QChar.Text;
      QuoteConcat(s[1..], t);
      ConcatAssoc(QuoteChars(s)[0].Text(), Multipart.QText(QuoteChars(s[1..])), Multipart.QText(QuoteChars(t)));
    }
  }

  lemma ConcatAssoc(a: string, b: string, c: string)
    ensures (a + b) + c == a + (b + c)
  {
  }

  lemma HeaderOfTwo(p: Multipart.Param, q: Multipart.Param)
    ensures Multipart.HeaderText([p, q]) == p.Text() + ";" + q.Text()
  {
    hide Multipart.Param.Text;
    var ts := Multipart.ParamTexts([p, q]);
    assert ts == [p.Text(), q.Text()] && ts[1..] == [q.Text()];
    assert Join([q.Text()], ";") == q.Text();
  }

  lemma {:induction false} PlainQuotes(s: string)
    requires '"' !in s && '\\' !in s
    ensures Multipart.QText(QuoteChars(s)) == s
  {
    if s != "" {
      PlainQuotes(s[1..]);
      QuoteSplits(s);
    }
  }

  lemma DispositionText(name: string)
    requires '"' !in name && '\\' !in name
    ensures Disposition(name) == "form-data" + ";" + (" " + ("name" + "=" + ("\"" + (name + ("\"" + "")))))
  {
    PlainQuotes(name);
    var q := Multipart.Quoted(" ", "name", QuoteChars(name), "");
    assert Multipart.Alone("", "form-data").Text() == "form-data";
    assert q.Text() == " " + ("name" + "=" + ("\"" + (name + ("\"" + ""))));
    hide Multipart.Param.Text, QuoteChars, Multipart.QText, Multipart.HeaderText;
    HeaderOfTwo(Multipart.Alone("", "form-data"), q);
  }

  /** What is written after a semicolon in a name. */
  function CutOff(tail: string): string {
    Multipart.QText(QuoteChars(tail)) + "\""
  }

  function CutParam(head: string): Multipart.Param {
    Multipart.Unclosed(" ", "name", QuoteChars(head))
  }

  lemma QuoteSemicolon()
    ensures Multipart.QText(QuoteChars(";")) == ";"
  {
    assert QuoteChars(";")[1..] == [];
  }

  lemma Regroup(h: string, r: string)
    ensures " " + ("name" + "=" + ("\"" + ((h + ";" + r) + ("\"" + ""))))
         == (" " + ("name" + "=" + ("\"" + (h + "")))) + ";" + (r + "\"")
  {
  }

  lemma CutDisposition(head: string, tail: string)
    ensures Disposition(head + ";" + tail) == "form-data" + ";" + (CutParam(head).Text() + ";" + CutOff(tail))
  {
    QuoteConcat(head + ";", tail);
    QuoteConcat(head, ";");
    QuoteSemicolon();
    var h, r := Multipart.QText(QuoteChars(head)), Multipart.QText(QuoteChars(tail));
    var q := Multipart.Quoted(" ", "name", QuoteChars(head + ";" + tail), "");
    assert q.Text() == " " + ("name" + "=" + ("\"" + ((h + ";" + r) + ("\"" + ""))));
    Regroup(h, r);
    assert q.Text() == CutParam(head).Text() + ";" + CutOff(tail);
    assert Multipart.Alone("", "form-data").Text() == "form-data";
    hide Multipart.Param.Text, CutParam, CutOff, QuoteChars, Multipart.QText, Multipart.HeaderText;
    HeaderOfTwo(Multipart.Alone("", "form-data"), q);
  }

  lemma SplitThree(a: string, b: string, c: string)
    requires ';' !in a && ';' !in b
    ensures Split(a + ";" + (b + ";" + c), ';') == [a, b] + Split(c, ';')
  {
    hide Split;
    SplitHead(a, b + ";" + c, ';');
    SplitHead(b, c, ';');
  }

  lemma FormDataIsOneToken()
    ensures ';' !in "form-data"
  {
  }

  lemma CutTokens(head: string, tail: string)
    requires ';' !in head
    ensures Split(Disposition(head + ";" + tail), ';')
         == ["form-data", CutParam(head).Text()] + Split(CutOff(tail), ';')
  {
    Multipart.ParamAssigns(map[], CutParam(head));
    hide *;
    CutDisposition(head, tail);
    FormDataIsOneToken();
    SplitThree("form-data", CutParam(head).Text(), CutOff(tail));
  }

  lemma CutAssigns(m: Multipart.Params, head: string)
    requires ';' !in head
    ensures Multipart.AssignToken(m, CutParam(head).Text()) == m["name" := Some(head)]
  {
    Multipart.ParamAssigns(m, CutParam(head));
    QuoteCharsMeaning(head);
  }

  lemma CutLookup(tokens: seq<string>, head: string)
    requires ';' !in head && |tokens| >= 2 && tokens[1] == CutParam(head).Text()
    requires forall j | 2 <= j < |tokens| :: Multipart.TokenKey(tokens[j]) != "name"
    ensures var m := Multipart.AssignTokens(tokens); "name" in m && m["name"] == Some(head)
  {
    hide *;
    Multipart.AssignTokensSnoc(tokens, 1);
    CutAssigns(Multipart.AssignTokens(tokens[..1]), head);
    Multipart.LaterTokensKeep(tokens, 2, "name", Some(head));
  }

  /** A name is cut at its first semicolon, unless what follows gives another one. */
  lemma NameIsCut(head: string, tail: string)
    requires ';' !in head
    requires forall t | t in Split(CutOff(tail), ';') :: Multipart.TokenKey(t) != "name"
    ensures NameRead(head + ";" + tail) == Some(head)
  {
    NameIsLookedUp(head + ";" + tail);
    hide NameRead, Disposition, CutParam, CutOff, Split, Multipart.AssignTokens, Multipart.TokenKey;
    CutTokens(head, tail);
    CutLookup(["form-data", CutParam(head).Text()] + Split(CutOff(tail), ';'), head);
  }

  // ---- A list of pairs, written both ways -----------------------------------------------

  function UrlsOf(ps: seq<ParseQs.Pair>): seq<string> {
    if ps == [] then []
    else UrlsOf(ps[..|ps| - 1]) + if ps[|ps| - 1].key == "url" then [ps[|ps| - 1].value] else []
  }

  function PartOf(p: ParseQs.Pair): Multipart.Part {
    Multipart.Part([Multipart.Header("Content-Disposition", Disposition(p.key))], [p.value])
  }

  function PartsOf(ps: seq<ParseQs.Pair>): seq<Multipart.Part> {
    seq(|ps|, i requires 0 <= i < |ps| => PartOf(ps[i]))
  }

  function FormTypeWord(): Multipart.Param {
    Multipart.Alone("", "multipart/form-data")
  }

  /** `multipart/form-data; boundary=...` */
  function FormType(boundary: string): string {
    Multipart.HeaderText([FormTypeWord(), Multipart.Token(" ", "boundary", boundary)])
  }

  predicate Boundary(b: string) {
    b != "" && ';' !in b && '\0' !in b && b[0] != '"'
  }

  lemma FormTypeStarts(b: string)
    ensures StartsWith(FormType(b), "multipart/form-data")
  {
    assert FormTypeWord().Text() == "multipart/form-data";
    hide Multipart.Param.Text, FormTypeWord;
  }

  lemma FormTypeText(b: string)
    ensures FormType(b) == "multipart/form-data" + ";" + (" " + ("boundary" + "=" + b))
  {
    assert FormTypeWord().Text() == "multipart/form-data";
    assert Multipart.Token(" ", "boundary", b).Text() == " " + ("boundary" + "=" + b);
    hide Multipart.Param.Text, FormTypeWord, Multipart.HeaderText;
    HeaderOfTwo(FormTypeWord(), Multipart.Token(" ", "boundary", b));
  }

  lemma FormTypeIsValid()
    ensures FormTypeWord().Valid()
  {
  }

  lemma FormTypeParams(b: string)
    requires Boundary(b)
    ensures var params := Multipart.HeaderParams(FormType(b));
            "boundary" in params && params["boundary"] == Some(b)
  {
    FormTypeIsValid();
    var p := Multipart.Token(" ", "boundary", b);
    assert p.Valid() && p.key == "boundary" && p.Meaning() == Some(b);
    hide FormTypeWord, Multipart.Param.Valid, Multipart.Param.Meaning, Multipart.HeaderParams, Multipart.HeaderText;
    Multipart.HeaderRoundTrip([FormTypeWord(), p]);
  }

  function FieldOf(p: ParseQs.Pair): ParseQs.Field
    requires p.Serializable()
  {
    ParseQs.Field(ParseQs.PercentEncode(p.key), ParseQs.PercentEncode(p.value))
  }

  /** The values of the pairs whose part is taken for one named url. */
  function ReadUrls(ps: seq<ParseQs.Pair>): seq<string> {
    if ps == [] then []
    else ReadUrls(ps[..|ps| - 1]) + if NameRead(ps[|ps| - 1].key) == Some("url") then [ps[|ps| - 1].value] else []
  }

  lemma PartsSplit(ps: seq<ParseQs.Pair>)
    requires ps != []
    ensures PartsOf(ps) == PartsOf(ps[..|ps| - 1]) + [PartOf(ps[|ps| - 1])]
  {
    hide PartOf;
  }

  lemma {:induction false} PairChunks(ps: seq<ParseQs.Pair>)
    ensures UrlChunks(PartsOf(ps)) == ReadUrls(ps)
  {
    if ps != [] {
      var n := |ps| - 1;
      PairChunks(ps[..n]);
      PartsSplit(ps);
      hide PartsOf, HeaderName;
      assert (PartsOf(ps[..n]) + [PartOf(ps[n])])[..n] == PartsOf(ps[..n]);
    }
  }

  lemma PartsAreDisposed(ps: seq<ParseQs.Pair>)
    ensures Disposed(PartsOf(ps)) && Multipart.OneChunkEach(PartsOf(ps))
  {
    hide Disposition, Multipart.Parsed;
    forall i | 0 <= i < |ps| ensures "Content-Disposition" in Multipart.HeaderMap(PartsOf(ps)[i].headers) {
      Multipart.OneHeader(Multipart.Header("Content-Disposition", Disposition(ps[i].key)));
    }
  }

  /** No key has a semicolon. */
  predicate Readable(ps: seq<ParseQs.Pair>) {
    forall i | 0 <= i < |ps| :: ';' !in ps[i].key
  }

  lemma UrlsSplit(ps: seq<ParseQs.Pair>)
    requires ps != []
    ensures var p, front := ps[|ps| - 1], ps[..|ps| - 1];
            && (Readable(ps) <==> Readable(front) && ';' !in p.key)
            && UrlsOf(ps) == UrlsOf(front) + (if p.key == "url" then [p.value] else [])
            && ReadUrls(ps) == ReadUrls(front) + (if NameRead(p.key) == Some("url") then [p.value] else [])
  {
    hide NameRead;
  }

  /** Both lists of urls are the same when no key has a semicolon. */
  lemma {:induction false} ReadableUrls(ps: seq<ParseQs.Pair>)
    requires Readable(ps)
    ensures ReadUrls(ps) == UrlsOf(ps)
  {
    hide NameRead, Readable;
    if ps != [] {
      UrlsSplit(ps);
      hide UrlsOf, ReadUrls;
      ReadableUrls(ps[..|ps| - 1]);
      DispositionNamesField(ps[|ps| - 1].key);
    }
  }

  lemma SerializeSplits(ps: seq<ParseQs.Pair>)
    requires ParseQs.Serializable(ps) && ps != []
    ensures var n := |ps| - 1;
            && ParseQs.Serializable(ps[..n]) && ps[n].Serializable()
            && ParseQs.SerializePairs(ps) == ParseQs.SerializePairs(ps[..n]) + [FieldOf(ps[n])]
  {
    hide ParseQs.PercentEncode, ParseQs.ValidForm, ParseQs.Pair.Serializable;
  }

  lemma UrlValuesOneMore(fs: seq<ParseQs.Field>, f: ParseQs.Field)
    requires ParseQs.ValidForm(fs) && f.Valid()
    ensures ParseQs.ValidForm(fs + [f])
    ensures UrlValues(fs + [f]) == UrlValues(fs) + if f.Key() == "url" then [f.Value()] else []
  {
    hide ParseQs.Field.Valid, ParseQs.Field.Key, ParseQs.Field.Value;
    assert (fs + [f])[..|fs|] == fs;
  }

  lemma {:induction false} SerializedUrls(ps: seq<ParseQs.Pair>)
    requires ParseQs.Serializable(ps)
    ensures UrlValues(ParseQs.SerializePairs(ps)) == UrlsOf(ps)
  {
    if ps != [] {
      var n := |ps| - 1;
      SerializeSplits(ps);
      UrlsSplit(ps);
      ParseQs.SerializedField(ps[n]);
      var f := FieldOf(ps[n]);
      assert f.Valid() && f.Key() == ps[n].key && f.Value() == ps[n].value;
      hide *;
      SerializedUrls(ps[..n]);
      UrlValuesOneMore(ParseQs.SerializePairs(ps[..n]), f);
    }
  }

  lemma {:induction false} SerializedAt(ps: seq<ParseQs.Pair>, i: nat)
    requires ParseQs.Serializable(ps) && i < |ps|
    ensures ps[i].Serializable() && ParseQs.SerializePairs(ps)[i] == FieldOf(ps[i])
  {
    SerializeSplits(ps);
    hide FieldOf, ParseQs.SerializePairs, ParseQs.Serializable, ParseQs.Pair.Serializable;
    if i < |ps| - 1 {
      SerializedAt(ps[..|ps| - 1], i);
    }
  }

  lemma PairIsPresentedIff(p: ParseQs.Pair)
    requires p.Serializable()
    ensures FieldOf(p).Valid() && (Presents(PartOf(p), FieldOf(p)) <==> ';' !in p.key)
  {
    ParseQs.SerializedField(p);
    Multipart.ConcatOne(PartOf(p).chunks);
    DispositionNamesField(p.key);
    hide ParseQs.PercentEncode, Disposition, HeaderName, Multipart.Concat;
    hide ParseQs.Field.Valid, ParseQs.Field.Key, ParseQs.Field.Value;
  }

  /** The parts of a list of pairs present its form exactly when no key has a semicolon. */
  lemma PairsArePresentedIff(ps: seq<ParseQs.Pair>)
    requires ParseQs.Serializable(ps)
    ensures PresentsForm(PartsOf(ps), ParseQs.SerializePairs(ps)) <==> Readable(ps)
  {
    hide PartOf, Presents, FieldOf, ParseQs.SerializePairs, UrlValues, UrlsOf, ParseQs.IsBytes;
    hide ParseQs.Field.Valid;
    var fs, parts := ParseQs.SerializePairs(ps), PartsOf(ps);
    forall i | 0 <= i < |ps| ensures Presents(parts[i], fs[i]) <==> ';' !in ps[i].key {
      SerializedAt(ps, i);
      PairIsPresentedIff(ps[i]);
    }
  }

  /** A parser that finds these pairs' parts in the body. */
  predicate ParsesAs(env: Env, boundary: string, body: string, ps: seq<ParseQs.Pair>) {
    env.parser(boundary, TrimRight(body)) == Multipart.FormTrace(PartsOf(ps))
  }

  lemma PairsAreDelivered(ps: seq<ParseQs.Pair>, boundary: string, body: string, env: Env)
    requires Boundary(boundary) && ParsesAs(env, boundary, body, ps)
    ensures Delivers(FormType(boundary), body, env, PartsOf(ps))
  {
    FormTypeStarts(boundary);
    FormTypeParams(boundary);
    hide FormType, PartsOf, Multipart.HeaderParams, Multipart.FormTrace, TrimRight, StartsWith;
  }

  /** Urlencoded, the url of a list of pairs is the value of the last one named url. */
  lemma UrlEncodedPairs(ps: seq<ParseQs.Pair>)
    requires ParseQs.Serializable(ps)
    ensures var us := UrlsOf(ps);
            UrlEncodedUrl(ParseQs.FormText(ParseQs.SerializePairs(ps))) ==
            if |ps| > MAX_PARAMS + 1 then Thrown
            else if us == [] then Rejected("No URL parameter passed")
            else Found(us[|us| - 1])
  {
    hide *;
    SerializedUrls(ps);
    var fs := ParseQs.SerializePairs(ps);
    assert |fs| == |ps|;
    UrlEncodedTakesLast(fs);
  }

  /** As multipart it is the value of the first one whose name is read as url. */
  lemma MultipartPairs(ps: seq<ParseQs.Pair>, boundary: string, body: string, env: Env)
    requires Boundary(boundary) && ParsesAs(env, boundary, body, ps)
    ensures var us := ReadUrls(ps);
            MultipartUrl(FormType(boundary), body, env) ==
            if us == [] || us[0] == "" then Rejected("No URL specified") else Found(us[0])
  {
    hide *;
    PairChunks(ps);
    PartsAreDisposed(ps);
    PairsAreDelivered(ps, boundary, body, env);
    MultipartTakesFirst(FormType(boundary), body, env, PartsOf(ps));
  }

  /** When both encodings of a list of pairs find the same url. */
  predicate PairsAlike(ps: seq<ParseQs.Pair>) {
    var us, rs := UrlsOf(ps), ReadUrls(ps);
    |ps| <= MAX_PARAMS + 1 && us != [] && rs != [] && rs[0] == us[|us| - 1] && rs[0] != ""
  }

  lemma PairsAgreeIff(ps: seq<ParseQs.Pair>, boundary: string, body: string, env: Env)
    requires ParseQs.Serializable(ps) && Boundary(boundary) && ParsesAs(env, boundary, body, ps)
    ensures UrlEncodedUrl(ParseQs.FormText(ParseQs.SerializePairs(ps))) == MultipartUrl(FormType(boundary), body, env)
            <==> PairsAlike(ps)
  {
    UrlEncodedPairs(ps);
    MultipartPairs(ps, boundary, body, env);
    MessagesDiffer();
    hide UrlEncodedUrl, MultipartUrl, FormType, Boundary, ParsesAs, UrlsOf, ReadUrls;
    hide ParseQs.Serializable, ParseQs.SerializePairs, ParseQs.FormText;
  }

  /** Requests that post a list of pairs, urlencoded and as multipart. */
  ghost predicate PostPairs(plain: Request, multi: Request, ps: seq<ParseQs.Pair>, boundary: string, env: Env) {
    && ParseQs.Serializable(ps) && Boundary(boundary) && ParsesAs(env, boundary, multi.body, ps)
    && plain.contentType == "application/x-www-form-urlencoded"
    && plain.body == ParseQs.FormText(ParseQs.SerializePairs(ps))
    && multi == plain.(contentType := FormType(boundary), body := multi.body)
  }

  lemma PostedPairs(plain: Request, multi: Request, ps: seq<ParseQs.Pair>, boundary: string, env: Env)
    requires PostPairs(plain, multi, ps, boundary, env)
    ensures PostedUrl(plain, env) == UrlEncodedUrl(ParseQs.FormText(ParseQs.SerializePairs(ps)))
    ensures PostedUrl(multi, env) == MultipartUrl(FormType(boundary), multi.body, env)
  {
    FormTypeStarts(boundary);
    hide UrlEncodedUrl, MultipartUrl, FormType, Boundary, ParsesAs, StartsWith;
    hide ParseQs.Serializable, ParseQs.SerializePairs, ParseQs.FormText;
    MultipartIsNotUrlEncoded(FormType(boundary));
  }

  /** With the same url found, the pairs do the same to the table and get the same
      response whichever way they are posted. */
  lemma PairsPostAlike(
    cfg: Config, table: Table, env: Env, ps: seq<ParseQs.Pair>, boundary: string, plain: Request, multi: Request)
    requires Generate.ValidWords(cfg.words)
    requires PostPairs(plain, multi, ps, boundary, env) && PairsAlike(ps)
    ensures HandlePost(cfg, table, plain, env) == HandlePost(cfg, table, multi, env)
  {
    assert ParseQs.Serializable(ps) && Boundary(boundary) && ParsesAs(env, boundary, multi.body, ps);
    assert multi == plain.(contentType := FormType(boundary), body := multi.body);
    assert multi == plain.(contentType := multi.contentType, body := multi.body);
    hide *;
    PostedPairs(plain, multi, ps, boundary, env);
    PairsAgreeIff(ps, boundary, multi.body, env);
    SameUrlSamePost(cfg, table, env, plain, multi);
  }

  // ---- Forms that differ ------------------------------------------------------------------

  const URL_A := "http://a"
  const URL_B := "http://b"
  const TWO_URLS := [ParseQs.Pair("url", URL_A), ParseQs.Pair("url", URL_B)]
  const ONE_URL := [ParseQs.Pair("url;x", URL_A), ParseQs.Pair("url", URL_B)]

  lemma CutUrl()
    ensures NameRead("url;x") == Some("url")
  {
    var t := CutOff("x");
    assert QuoteChars("x")[1..] == [];
    assert t == "x\"" && "url" + ";" + "x" == "url;x";
    FindUnique(t, ';', |t|);
    FindUnique(t, '=', |t|);
    assert Split(t, ';') == [t] && Multipart.TokenKey(t) == t && t[0] == 'x';
    NameIsCut("url", "x");
  }

  lemma TwoPairs(p: ParseQs.Pair, q: ParseQs.Pair)
    ensures UrlsOf([p, q]) == (if p.key == "url" then [p.value] else []) + (if q.key == "url" then [q.value] else [])
    ensures ReadUrls([p, q]) == (if NameRead(p.key) == Some("url") then [p.value] else [])
                              + (if NameRead(q.key) == Some("url") then [q.value] else [])
  {
    hide NameRead;
    assert [p, q][..1] == [p] && [p][..0] == [];
    assert UrlsOf([p]) == UrlsOf([]) + (if p.key == "url" then [p.value] else []);
    assert ReadUrls([p]) == ReadUrls([]) + (if NameRead(p.key) == Some("url") then [p.value] else []);
  }

  /** Two fields named url, or one beside a field whose name starts with `url;`: the
      first is found as multipart, the last one urlencoded. */
  lemma DifferentUrls()
    ensures ParseQs.Serializable(TWO_URLS) && |TWO_URLS| == 2
    ensures ParseQs.Serializable(ONE_URL) && |ONE_URL| == 2
    ensures UrlsOf(TWO_URLS) == [URL_A, URL_B] && ReadUrls(TWO_URLS) == [URL_A, URL_B]
    ensures UrlsOf(ONE_URL) == [URL_B] && ReadUrls(ONE_URL) == [URL_A, URL_B]
  {
    UrlNames();
    AreBytes();
    hide NameRead, URL_A, URL_B, ParseQs.IsBytes;
    TwoPairs(ParseQs.Pair("url", URL_A), ParseQs.Pair("url", URL_B));
    TwoPairs(ParseQs.Pair("url;x", URL_A), ParseQs.Pair("url", URL_B));
  }

  lemma UrlNames()
    ensures NameRead("url;x") == Some("url") == NameRead("url") && "url;x" != "url"
  {
    assert ';' !in "url" && |"url;x"| == 5;
    hide NameRead;
    CutUrl();
    DispositionNamesField("url");
  }

  lemma AreBytes()
    ensures ParseQs.IsBytes(URL_A) && ParseQs.IsBytes(URL_B) && ParseQs.IsBytes("url") && ParseQs.IsBytes("url;x")
  {
  }

  lemma UrlsDiffer()
    ensures URL_A != URL_B && URL_A != "" && CStr(URL_A) == URL_A && CStr(URL_B) == URL_B
    ensures HttpPrefix(URL_A) && HttpPrefix(URL_B)
  {
    assert URL_A[7] == 'a' && URL_B[7] == 'b';
    assert StartsWith(URL_A, "http://") && StartsWith(URL_B, "http://");
  }

  lemma FirstRow(cfg: Config, req: Request, env: Env, url: string)
    requires Generate.ValidWords(cfg.words) && PostsTo(req)
    requires PostedUrl(req, env) == Found(url) && HttpPrefix(url)
    requires env.prepareOk && env.bindTokenOk && env.bindUrlOk && env.stepOk
    ensures Handle(cfg, map[], req, env).table == map[Generate.Token(cfg.words, env.stream) := CStr(url)]
  {
    hide PostedUrl, Handle, Generate.Token, HttpPrefix, CStr;
    TableAfterRequest(cfg, map[], req, env);
  }

  lemma StoredPairs(
    cfg: Config, env: Env, ps: seq<ParseQs.Pair>, boundary: string, plain: Request, multi: Request)
    requires Generate.ValidWords(cfg.words) && PostPairs(plain, multi, ps, boundary, env)
    requires PostsTo(plain) && env.prepareOk && env.bindTokenOk && env.bindUrlOk && env.stepOk
    requires |ps| == 2 && UrlsOf(ps) != [] && UrlsOf(ps)[|UrlsOf(ps)| - 1] == URL_B
    requires ReadUrls(ps) != [] && ReadUrls(ps)[0] == URL_A
    ensures var t := Generate.Token(cfg.words, env.stream);
            && Handle(cfg, map[], plain, env).table == map[t := URL_B]
            && Handle(cfg, map[], multi, env).table == map[t := URL_A]
  {
    assert ParseQs.Serializable(ps) && Boundary(boundary) && ParsesAs(env, boundary, multi.body, ps);
    assert PostsTo(multi);
    UrlsDiffer();
    hide PostPairs, PostsTo, PostedUrl, UrlEncodedUrl, MultipartUrl, FormType, Handle, Generate.Token, ParsesAs;
    hide Boundary, UrlsOf, ReadUrls, CStr, HttpPrefix, URL_A, URL_B;
    hide ParseQs.Serializable, ParseQs.SerializePairs, ParseQs.FormText;
    PostedPairs(plain, multi, ps, boundary, env);
    UrlEncodedPairs(ps);
    MultipartPairs(ps, boundary, multi.body, env);
    FirstRow(cfg, plain, env, URL_B);
    FirstRow(cfg, multi, env, URL_A);
  }

  /** Both posts of any list of pairs, met by a parser that finds its parts. */
  lemma PostsOfPairs(ps: seq<ParseQs.Pair>, version: nat, keepAlive: bool, boundary: string, body: string, env: Env)
    returns (plain: Request, multi: Request, env': Env)
    requires ParseQs.Serializable(ps) && Boundary(boundary)
    ensures PostPairs(plain, multi, ps, boundary, env') && PostsTo(plain)
    ensures plain.version == version && plain.keepAlive == keepAlive && multi.body == body
    ensures env' == env.(parser := env'.parser)
  {
    hide FormType, PartsOf, Boundary, TrimRight, Multipart.FormTrace;
    hide ParseQs.Serializable, ParseQs.SerializePairs, ParseQs.FormText;
    plain := Request(Post, "/post.html", version, keepAlive, "application/x-www-form-urlencoded",
                     ParseQs.FormText(ParseQs.SerializePairs(ps)));
    multi := plain.(contentType := FormType(boundary), body := body);
    env' := env.(parser := (_, _) => Multipart.FormTrace(PartsOf(ps)));
  }

  /** The same pairs store one url or the other, depending on how they are posted: when
      url is given twice, and when a name has a semicolon. */
  lemma EncodingsDisagree(
    cfg: Config, env: Env, ps: seq<ParseQs.Pair>, version: nat, keepAlive: bool, boundary: string, body: string)
    returns (plain: Request, multi: Request, env': Env)
    requires Generate.ValidWords(cfg.words) && Boundary(boundary)
    requires env.prepareOk && env.bindTokenOk && env.bindUrlOk && env.stepOk
    requires ps == TWO_URLS || ps == ONE_URL
    ensures PostPairs(plain, multi, ps, boundary, env') && env' == env.(parser := env'.parser)
    ensures URL_A != URL_B
    ensures var t := Generate.Token(cfg.words, env.stream);
            && Handle(cfg, map[], plain, env').table == map[t := URL_B]
            && Handle(cfg, map[], multi, env').table == map[t := URL_A]
  {
    hide *;
    DifferentUrls();
    UrlsDiffer();
    plain, multi, env' := PostsOfPairs(ps, version, keepAlive, boundary, body, env);
    StoredPairs(cfg, env', ps, boundary, plain, multi);
  }
}
