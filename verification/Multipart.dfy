// Header parameters and the callback accumulator behind multipart/form-data
// (src/multipart_wrapper.cpp). The C parser that splits a body into header and
// data callbacks is not part of this model; only the callbacks it makes are.
module Multipart {
  import opened Text

  // ---- Header values ------------------------------------------------------

  /** None is std::monostate: a parameter that stands alone. */
  type Params = map<string, Option<string>>

  datatype HeaderValue = Bare(text: string) | Parameterized(params: Params)

  predicate IsSpace(c: char) {
    c == ' ' || '\t' <= c <= '\r'
  }

  function TrimLeft(s: string): string {
    if s != "" && IsSpace(s[0]) then TrimLeft(s[1..]) else s
  }

  /** What `>> std::quoted` yields for the text after an opening quote: up to the
      closing quote or the end, each backslash standing for the byte after it. */
  function Unquoted(s: string): string {
    if s == "" || s[0] == '"' then ""
    else if s[0] == '\\' then
      if |s| == 1 then "" else [s[1]] + Unquoted(s[2..])
    else [s[0]] + Unquoted(s[1..])
  }

  function ParamValue(v: string): string {
    if v != "" && v[0] == '"' then Unquoted(v[1..]) else v
  }

  function AssignToken(m: Params, token: string): Params {
    var t := TrimLeft(token);
    var pos := Find(t, '=');
    if pos < |t| then m[t[..pos] := Some(ParamValue(t[pos + 1..]))] else m[t := None]
  }

  function AssignTokens(tokens: seq<string>): (m: Params)
    ensures tokens != [] ==> |m| >= 1
  {
    if tokens == [] then map[]
    else AssignToken(AssignTokens(tokens[..|tokens| - 1]), tokens[|tokens| - 1])
  }

  lemma AssignTokensSnoc(tokens: seq<string>, n: nat)
    requires n < |tokens|
    ensures AssignTokens(tokens[..n + 1]) == AssignToken(AssignTokens(tokens[..n]), tokens[n])
  {
    assert tokens[..n + 1][..n] == tokens[..n];
  }

  function HeaderParams(header: string): Params {
    AssignTokens(Split(header, ';'))
  }

  /** `parse_header_value`: every header, even an empty one, yields parameters. */
  method ParseHeaderValue(header: string) returns (r: HeaderValue)
    ensures r == Parameterized(HeaderParams(header))
  {
    assert AssignTokens([]) == map[];
    hide TrimLeft, Unquoted, Split, AssignTokens;
    var tokens := Split(header, ';');
    var data: Params := map[];
    for n := 0 to |tokens|
      invariant data == AssignTokens(tokens[..n])
    {
      AssignTokensSnoc(tokens, n);
      var token := TrimLeft(tokens[n]);
      var pos := Find(token, '=');
      if pos < |token| {
        var k, v := token[..pos], token[pos + 1..];
        if v != "" && v[0] == '"' {
          v := Unquoted(v[1..]);
        }
        data := data[k := Some(v)];
      } else {
        data := data[token := None];
      }
    }
    assert tokens[..|tokens|] == tokens;
    if |data| == 0 {
      return Bare("");
    }
    return Parameterized(data);
  }

  // ---- Printing header parameters -------------------------------------------

  /** One byte of a quoted string, alone or as a quoted pair
      (section 5.6.4 of RFC 9110). */
  datatype QChar = Literal(c: char) | Pair(c: char) {
    predicate Legal() {
      c != ';' && (Literal? ==> c != '"' && c != '\\')
    }

    function Text(): string {
      if Literal? then [c] else ['\\', c]
    }
  }

  function QText(qs: seq<QChar>): string {
    if qs == [] then "" else qs[0].Text() + QText(qs[1..])
  }

  function QMeaning(qs: seq<QChar>): string {
    if qs == [] then "" else [qs[0].c] + QMeaning(qs[1..])
  }

  /** A parameter as written: `key`, `key=value` or `key="quoted"`, after optional
      white space. What follows a closing quote is ignored; the quote may be missing. */
  datatype Param =
    | Alone(ws: string, key: string)
    | Token(ws: string, key: string, value: string)
    | Quoted(ws: string, key: string, content: seq<QChar>, tail: string)
    | Unclosed(ws: string, key: string, content: seq<QChar>)
  {
    predicate Valid() {
      && (forall i | 0 <= i < |ws| :: IsSpace(ws[i]))
      && ';' !in key && '=' !in key && (key != "" ==> !IsSpace(key[0]))
      && (Token? ==> ';' !in value && (value != "" ==> value[0] != '"'))
      && (Quoted? ==> ';' !in tail)
      && (Quoted? || Unclosed? ==> forall i | 0 <= i < |content| :: content[i].Legal())
    }

    function Written(): string {
      match this
      case Alone(_, key) => key
      case Token(_, key, value) => key + "=" + value
      case Quoted(_, key, content, tail) => key + "=" + ("\"" + (QText(content) + ("\"" + tail)))
      case Unclosed(_, key, content) => key + "=" + ("\"" + (QText(content) + ""))
    }

    function Text(): string {
      ws + Written()
    }

    function Meaning(): Option<string> {
      match this
      case Alone(_, _) => None
      case Token(_, _, value) => Some(value)
      case Quoted(_, _, content, _) => Some(QMeaning(content))
      case Unclosed(_, _, content) => Some(QMeaning(content))
    }
  }

  predicate ValidParams(ps: seq<Param>) {
    forall i | 0 <= i < |ps| :: ps[i].Valid()
  }

  function ParamTexts(ps: seq<Param>): (ts: seq<string>)
    ensures |ts| == |ps|
    ensures forall i :: 0 <= i < |ps| ==> ts[i] == ps[i].Text()
  {
    seq(|ps|, i requires 0 <= i < |ps| => ps[i].Text())
  }

  function HeaderText(ps: seq<Param>): string {
    Join(ParamTexts(ps), ";")
  }

  function LastMeaning(ps: seq<Param>): Params {
    if ps == [] then map[] else LastMeaning(ps[..|ps| - 1])[ps[|ps| - 1].key := ps[|ps| - 1].Meaning()]
  }

  lemma {:induction false} TrimLeftDropsSpace(ws: string, t: string)
    requires forall i | 0 <= i < |ws| :: IsSpace(ws[i])
    requires t != "" ==> !IsSpace(t[0])
    ensures TrimLeft(ws + t) == t
  {
    if ws == "" {
      assert ws + t == t;
    } else {
      assert (ws + t)[1..] == ws[1..] + t;
      TrimLeftDropsSpace(ws[1..], t);
    }
  }

  lemma UnquotedOne(q: QChar, rest: string)
    requires q.Legal()
    ensures Unquoted(q.Text() + rest) == [q.c] + Unquoted(rest)
  {
    assert (q.Text() + rest)[|q.Text()|..] == rest;
  }

  /** Reading a quoted string inverts writing it, up to its closing quote or, when
      that is missing, the end. */
  lemma {:induction false} UnquotedInvertsQuoting(qs: seq<QChar>, end: string)
    requires forall i | 0 <= i < |qs| :: qs[i].Legal()
    requires end == "" || end[0] == '"'
    ensures Unquoted(QText(qs) + end) == QMeaning(qs)
  {
    if qs == [] {
      assert QText(qs) + end == end;
    } else {
      var front, rest := qs[0].Text(), QText(qs[1..]);
      assert QText(qs) == front + rest;
      UnquotedOne(qs[0], rest + end);
      UnquotedInvertsQuoting(qs[1..], end);
      hide Unquoted, QText;
      assert (front + rest) + end == front + (rest + end);
    }
  }

  lemma {:induction false} QTextHasNoSemicolon(qs: seq<QChar>)
    requires forall i | 0 <= i < |qs| :: qs[i].Legal()
    ensures ';' !in QText(qs)
  {
    if qs != [] {
      QTextHasNoSemicolon(qs[1..]);
    }
  }

  lemma KeyIsFound(key: string, v: string)
    requires '=' !in key
    ensures Find(key + "=" + v, '=') == |key|
    ensures (key + "=" + v)[..|key|] == key && (key + "=" + v)[|key| + 1..] == v
  {
    FindUnique(key + "=" + v, '=', |key|);
  }

  lemma StartsWithoutSpace(key: string, v: string)
    requires key != "" ==> !IsSpace(key[0])
    ensures !IsSpace((key + "=" + v)[0])
  {
    assert (key + "=" + v)[0] == if key == "" then '=' else key[0];
  }

  lemma TokenAssigns(m: Params, ws: string, key: string, v: string)
    requires forall i | 0 <= i < |ws| :: IsSpace(ws[i])
    requires '=' !in key && (key != "" ==> !IsSpace(key[0]))
    ensures AssignToken(m, ws + (key + "=" + v)) == m[key := Some(ParamValue(v))]
  {
    hide TrimLeft, Find, ParamValue, IsSpace;
    StartsWithoutSpace(key, v);
    TrimLeftDropsSpace(ws, key + "=" + v);
    KeyIsFound(key, v);
  }

  lemma QuotedAssigns(m: Params, ws: string, key: string, content: seq<QChar>, end: string)
    requires forall i | 0 <= i < |ws| :: IsSpace(ws[i])
    requires '=' !in key && (key != "" ==> !IsSpace(key[0]))
    requires forall i | 0 <= i < |content| :: content[i].Legal()
    requires end == "" || end[0] == '"'
    ensures AssignToken(m, ws + (key + "=" + ("\"" + (QText(content) + end)))) == m[key := Some(QMeaning(content))]
  {
    hide TrimLeft, QText, QMeaning, Unquoted, IsSpace, AssignToken;
    UnquotedInvertsQuoting(content, end);
    var v := "\"" + (QText(content) + end);
    TokenAssigns(m, ws, key, v);
    assert v[1..] == QText(content) + end;
  }

  lemma ParamHasNoSemicolon(p: Param)
    requires p.Valid()
    ensures ';' !in p.Text()
  {
    hide QText;
    assert ';' !in p.ws;
    if p.Quoted? || p.Unclosed? {
      QTextHasNoSemicolon(p.content);
    }
  }

  lemma ParamAssigns(m: Params, p: Param)
    requires p.Valid()
    ensures AssignToken(m, p.Text()) == m[p.key := p.Meaning()]
    ensures ';' !in p.Text()
  {
    ParamHasNoSemicolon(p);
    hide Unquoted, TrimLeft, QText, QMeaning, IsSpace;
    match p
    case Alone(ws, key) =>
      TrimLeftDropsSpace(ws, key);
      FindUnique(key, '=', |key|);
    case Token(ws, key, value) =>
      hide AssignToken;
      TokenAssigns(m, ws, key, value);
    case Quoted(ws, key, content, tail) =>
      hide AssignToken;
      QuotedAssigns(m, ws, key, content, "\"" + tail);
    case Unclosed(ws, key, content) =>
      hide AssignToken;
      QuotedAssigns(m, ws, key, content, "");
  }

  lemma {:induction false} ParamsAssign(ps: seq<Param>)
    requires ValidParams(ps)
    ensures AssignTokens(ParamTexts(ps)) == LastMeaning(ps)
  {
    if ps != [] {
      var front := ps[..|ps| - 1];
      ParamsAssign(front);
      assert ParamTexts(ps)[..|ps| - 1] == ParamTexts(front);
      ParamAssigns(LastMeaning(front), ps[|ps| - 1]);
    }
  }

  /** Round trip over every way of writing a non-empty parameter list. */
  lemma HeaderRoundTrip(ps: seq<Param>)
    requires ps != [] && ValidParams(ps)
    ensures HeaderParams(HeaderText(ps)) == LastMeaning(ps)
  {
    var ts := ParamTexts(ps);
    forall t | t in ts ensures ';' !in t {
      var i :| 0 <= i < |ts| && t == ts[i];
      ParamAssigns(map[], ps[i]);
    }
    SplitJoin(ts, ';');
    ParamsAssign(ps);
  }

  /** White space is dropped up to the first byte that is none. */
  lemma {:induction false} TrimLeftExact(s: string)
    ensures |TrimLeft(s)| <= |s| && TrimLeft(s) == s[|s| - |TrimLeft(s)|..]
    ensures forall k | 0 <= k < |s| - |TrimLeft(s)| :: s[k] as int in {9, 10, 11, 12, 13, 32}
    ensures TrimLeft(s) != "" ==> TrimLeft(s)[0] as int !in {9, 10, 11, 12, 13, 32}
  {
    if s != "" && IsSpace(s[0]) {
      TrimLeftExact(s[1..]);
      assert forall k | 0 <= k < |s| - 1 :: s[1..][k] == s[k + 1];
    }
  }

  lemma UnquotedByte(c: char, rest: string)
    ensures c != '"' && c != '\\' ==> Unquoted([c] + rest) == [c] + Unquoted(rest)
    ensures Unquoted(['\\', c] + rest) == [c] + Unquoted(rest)
    ensures Unquoted("\"" + rest) == "" == Unquoted("")
  {
    assert ([c] + rest)[1..] == rest && (['\\', c] + rest)[2..] == rest;
  }

  /** Text without quotes and backslashes stands for itself, up to a closing quote or a
      backslash, which stands for the byte after it. */
  lemma {:induction false} UnquotedText(s: string, rest: string)
    requires '"' !in s && '\\' !in s
    ensures Unquoted(s + rest) == s + Unquoted(rest)
  {
    hide Unquoted;
    if s == "" {
      assert s + rest == rest;
    } else {
      UnquotedText(s[1..], rest);
      UnquotedByte(s[0], s[1..] + rest);
      assert s + rest == [s[0]] + (s[1..] + rest);
    }
  }

  // ---- Semicolons -------------------------------------------------------------

  lemma {:induction false} UnquotedHasNoSemicolon(s: string)
    requires ';' !in s
    ensures ';' !in Unquoted(s)
    decreases |s|
  {
    if s == "" || s[0] == '"' {
    } else if s[0] == '\\' {
      if |s| > 1 {
        UnquotedHasNoSemicolon(s[2..]);
      }
    } else {
      UnquotedHasNoSemicolon(s[1..]);
    }
  }

  lemma {:induction false} TrimLeftIsSuffix(s: string)
    ensures |TrimLeft(s)| <= |s| && TrimLeft(s) == s[|s| - |TrimLeft(s)|..]
  {
    if s != "" && IsSpace(s[0]) {
      TrimLeftIsSuffix(s[1..]);
    }
  }

  predicate NoSemicolons(m: Params) {
    forall k | k in m && m[k].Some? :: ';' !in m[k].value
  }

  lemma TokenHasNoSemicolon(m: Params, token: string)
    requires ';' !in token && NoSemicolons(m)
    ensures NoSemicolons(AssignToken(m, token))
  {
    TrimLeftIsSuffix(token);
    var t := TrimLeft(token);
    var pos := Find(t, '=');
    hide TrimLeft, Unquoted;
    if pos < |t| {
      var v := t[pos + 1..];
      assert ';' !in v;
      if v != "" && v[0] == '"' {
        UnquotedHasNoSemicolon(v[1..]);
      }
    }
  }

  /** A header is split at every semicolon, quoted or not, so that no value holds one. */
  lemma {:induction false} ValuesHaveNoSemicolon(tokens: seq<string>)
    requires forall t | t in tokens :: ';' !in t
    ensures NoSemicolons(AssignTokens(tokens))
  {
    if tokens != [] {
      ValuesHaveNoSemicolon(tokens[..|tokens| - 1]);
      hide AssignToken, NoSemicolons;
      TokenHasNoSemicolon(AssignTokens(tokens[..|tokens| - 1]), tokens[|tokens| - 1]);
    }
  }

  lemma HeaderValuesHaveNoSemicolon(header: string)
    ensures NoSemicolons(HeaderParams(header))
  {
    ValuesHaveNoSemicolon(Split(header, ';'));
  }

  /** The name a token is assigned to. */
  function TokenKey(token: string): string {
    var t := TrimLeft(token);
    t[..Find(t, '=')]
  }

  ghost predicate SameAt(m: Params, m': Params, key: string) {
    (key in m <==> key in m') && (key in m ==> m[key] == m'[key])
  }

  lemma OtherToken(m: Params, token: string, key: string)
    requires TokenKey(token) != key
    ensures SameAt(m, AssignToken(m, token), key)
  {
    hide TrimLeft, ParamValue;
    var t := TrimLeft(token);
    assert t[..|t|] == t;
  }

  /** Tokens with other names do not change what is known of one. */
  lemma {:induction false} OtherTokens(tokens: seq<string>, i: nat, n: nat, key: string)
    requires i <= n <= |tokens| && forall j | i <= j < n :: TokenKey(tokens[j]) != key
    ensures SameAt(AssignTokens(tokens[..i]), AssignTokens(tokens[..n]), key)
  {
    hide AssignTokens, AssignToken, TokenKey;
    if i < n {
      OtherTokens(tokens, i, n - 1, key);
      AssignTokensSnoc(tokens, n - 1);
      OtherToken(AssignTokens(tokens[..n - 1]), tokens[n - 1], key);
    }
  }

  lemma LaterTokensKeep(tokens: seq<string>, i: nat, key: string, value: Option<string>)
    requires i <= |tokens| && forall j | i <= j < |tokens| :: TokenKey(tokens[j]) != key
    requires key in AssignTokens(tokens[..i]) && AssignTokens(tokens[..i])[key] == value
    ensures key in AssignTokens(tokens) && AssignTokens(tokens)[key] == value
  {
    hide AssignTokens, TokenKey;
    OtherTokens(tokens, i, |tokens|, key);
    assert tokens[..|tokens|] == tokens;
  }

  // ---- The accumulator --------------------------------------------------------

  type Headers = map<string, HeaderValue>

  datatype Section = Section(headers: Headers, data: string)

  datatype Callback = OnHeaderField(at: string) | OnHeaderValue(at: string) | OnPartData(at: string)

  /** The accumulator's fields as a value. */
  datatype Acc = Acc(sections: seq<Section>, headers: Headers, name: string)

  const EMPTY := Acc([], map[], "")

  function Parsed(v: string): HeaderValue {
    Parameterized(HeaderParams(v))
  }

  function Feed(a: Acc, cb: Callback): Acc {
    match cb
    case OnHeaderField(at) => a.(name := at)
    case OnHeaderValue(at) => a.(headers := a.headers[a.name := Parsed(at)])
    case OnPartData(at) => a.(sections := a.sections + [Section(a.headers, at)], headers := map[])
  }

  function FeedAll(a: Acc, trace: seq<Callback>): Acc {
    if trace == [] then a else Feed(FeedAll(a, trace[..|trace| - 1]), trace[|trace| - 1])
  }

  class MultiPartData {
    const boundary: string
    var data: seq<Section>
    var curHeaderVals: Headers
    var curHeaderName: string

    ghost function State(): Acc
      reads this
    {
      Acc(data, curHeaderVals, curHeaderName)
    }

    constructor (boundary: string)
      ensures this.boundary == boundary && State() == EMPTY
    {
      this.boundary := boundary;
      data, curHeaderVals, curHeaderName := [], map[], "";
    }

    method ReadHeaderName(at: string)
      modifies this
      ensures State() == Feed(old(State()), OnHeaderField(at))
    {
      curHeaderName := at;
    }

    method ReadHeaderValue(at: string)
      modifies this
      ensures State() == Feed(old(State()), OnHeaderValue(at))
    {
      var v := ParseHeaderValue(at);
      curHeaderVals := curHeaderVals[curHeaderName := v];
    }

    method ReadBody(at: string)
      modifies this
      ensures State() == Feed(old(State()), OnPartData(at))
    {
      data := data + [Section(curHeaderVals, at)];
      curHeaderVals := map[];
    }

    /** The callbacks the parser makes for one body, in order. */
    method Ingest(trace: seq<Callback>)
      modifies this
      ensures State() == FeedAll(old(State()), trace)
    {
      for n := 0 to |trace|
        invariant State() == FeedAll(old(State()), trace[..n])
      {
        assert trace[..n + 1][..n] == trace[..n];
        match trace[n]
        case OnHeaderField(at) => ReadHeaderName(at);
        case OnHeaderValue(at) => ReadHeaderValue(at);
        case OnPartData(at) => ReadBody(at);
      }
      assert trace[..|trace|] == trace;
    }
  }

  lemma {:induction false} FeedAllConcat(a: Acc, xs: seq<Callback>, ys: seq<Callback>)
    ensures FeedAll(a, xs + ys) == FeedAll(FeedAll(a, xs), ys)
  {
    if ys == [] {
      assert xs + ys == xs;
    } else {
      var front := ys[..|ys| - 1];
      assert (xs + ys)[..|xs + ys| - 1] == xs + front;
      FeedAllConcat(a, xs, front);
    }
  }

  function SectionData(ss: seq<Section>): string {
    if ss == [] then "" else SectionData(ss[..|ss| - 1]) + ss[|ss| - 1].data
  }

  function BodyData(trace: seq<Callback>): string {
    if trace == [] then ""
    else
      BodyData(trace[..|trace| - 1]) +
      (match trace[|trace| - 1] case OnPartData(at) => at case _ => "")
  }

  /** Conservation: whatever the callbacks, no byte of body data is lost, repeated
      or moved. */
  lemma {:induction false} BodyDataConserved(trace: seq<Callback>)
    ensures SectionData(FeedAll(EMPTY, trace).sections) == BodyData(trace)
  {
    if trace != [] {
      var front := trace[..|trace| - 1];
      BodyDataConserved(front);
      var ss := FeedAll(EMPTY, front).sections;
      if trace[|trace| - 1].OnPartData? {
        assert FeedAll(EMPTY, trace).sections[..|ss|] == ss;
      }
    }
  }

  // ---- Parts --------------------------------------------------------------------

  datatype Header = Header(name: string, value: string)

  /** One part of a form: its headers, and its body in the chunks the parser
      delivers. */
  datatype Part = Part(headers: seq<Header>, chunks: seq<string>)

  function HeaderCallbacks(hs: seq<Header>): seq<Callback> {
    if hs == [] then []
    else
      HeaderCallbacks(hs[..|hs| - 1]) +
      [OnHeaderField(hs[|hs| - 1].name), OnHeaderValue(hs[|hs| - 1].value)]
  }

  function ChunkCallbacks(cs: seq<string>): seq<Callback> {
    if cs == [] then [] else ChunkCallbacks(cs[..|cs| - 1]) + [OnPartData(cs[|cs| - 1])]
  }

  function PartTrace(p: Part): seq<Callback> {
    HeaderCallbacks(p.headers) + ChunkCallbacks(p.chunks)
  }

  function FormTrace(ps: seq<Part>): seq<Callback> {
    if ps == [] then [] else FormTrace(ps[..|ps| - 1]) + PartTrace(ps[|ps| - 1])
  }

  /** The last value given for each header name. */
  function HeaderMap(hs: seq<Header>): (m: Headers)
    ensures hs != [] ==> m != map[]
  {
    if hs == [] then map[]
    else
      var h := hs[|hs| - 1];
      var m := HeaderMap(hs[..|hs| - 1])[h.name := Parsed(h.value)];
      assert h.name in m;
      m
  }

  function Concat(cs: seq<string>): string {
    if cs == [] then "" else Concat(cs[..|cs| - 1]) + cs[|cs| - 1]
  }

  /** What a form's sections should be: one for each part. */
  function IdealSections(ps: seq<Part>): (ss: seq<Section>)
    ensures |ss| == |ps|
    ensures forall i :: 0 <= i < |ps| ==> ss[i] == Section(HeaderMap(ps[i].headers), Concat(ps[i].chunks))
  {
    if ps == [] then []
    else
      IdealSections(ps[..|ps| - 1]) +
      [Section(HeaderMap(ps[|ps| - 1].headers), Concat(ps[|ps| - 1].chunks))]
  }

  function Sections(ps: seq<Part>): seq<Section> {
    FeedAll(EMPTY, FormTrace(ps)).sections
  }

  /** The sections one part's chunks become when `headers` have been collected. */
  function ChunkSections(headers: Headers, cs: seq<string>): (ss: seq<Section>)
    ensures |ss| == |cs|
    ensures forall i :: 0 <= i < |cs| ==> ss[i] == Section(if i == 0 then headers else map[], cs[i])
  {
    if cs == [] then []
    else
      ChunkSections(headers, cs[..|cs| - 1]) +
      [Section(if |cs| == 1 then headers else map[], cs[|cs| - 1])]
  }

  lemma ChunkSectionsSnoc(headers: Headers, cs: seq<string>)
    requires cs != []
    ensures ChunkSections(headers, cs) ==
            ChunkSections(headers, cs[..|cs| - 1]) + [Section(if |cs| == 1 then headers else map[], cs[|cs| - 1])]
  {
  }

  lemma FeedHeader(a: Acc, h: Header)
    ensures FeedAll(a, [OnHeaderField(h.name), OnHeaderValue(h.value)])
         == a.(headers := a.headers[h.name := Parsed(h.value)], name := h.name)
  {
    hide Parsed;
    var both := [OnHeaderField(h.name), OnHeaderValue(h.value)];
    assert both[..1] == [both[0]] && [both[0]][..0] == [];
    assert FeedAll(a, both[..1]) == Feed(a, both[0]);
  }

  lemma {:induction false} FeedHeaders(a: Acc, hs: seq<Header>)
    ensures var b := FeedAll(a, HeaderCallbacks(hs));
            b.sections == a.sections && b.headers == a.headers + HeaderMap(hs)
  {
    hide Parsed;
    if hs != [] {
      var front, h := hs[..|hs| - 1], hs[|hs| - 1];
      FeedHeaders(a, front);
      FeedAllConcat(a, HeaderCallbacks(front), [OnHeaderField(h.name), OnHeaderValue(h.value)]);
      FeedHeader(FeedAll(a, HeaderCallbacks(front)), h);
    }
  }

  lemma {:induction false} FeedChunks(a: Acc, cs: seq<string>)
    ensures var b := FeedAll(a, ChunkCallbacks(cs));
            && b.sections == a.sections + ChunkSections(a.headers, cs)
            && b.headers == if cs == [] then a.headers else map[]
  {
    if cs != [] {
      FeedChunks(a, cs[..|cs| - 1]);
      assert ChunkCallbacks(cs)[..|ChunkCallbacks(cs)| - 1] == ChunkCallbacks(cs[..|cs| - 1]);
    }
  }

  /** What one part adds, whatever came before it. */
  lemma FeedPart(a: Acc, p: Part)
    ensures var b := FeedAll(a, PartTrace(p));
            var headers := a.headers + HeaderMap(p.headers);
            && b.sections == a.sections + ChunkSections(headers, p.chunks)
            && b.headers == if p.chunks == [] then headers else map[]
  {
    FeedAllConcat(a, HeaderCallbacks(p.headers), ChunkCallbacks(p.chunks));
    FeedHeaders(a, p.headers);
    FeedChunks(FeedAll(a, HeaderCallbacks(p.headers)), p.chunks);
  }

  predicate OneChunkEach(ps: seq<Part>) {
    forall i | 0 <= i < |ps| :: |ps[i].chunks| == 1
  }

  lemma FeedForm(ps: seq<Part>)
    requires ps != []
    ensures FeedAll(EMPTY, FormTrace(ps))
         == FeedAll(FeedAll(EMPTY, FormTrace(ps[..|ps| - 1])), PartTrace(ps[|ps| - 1]))
  {
    FeedAllConcat(EMPTY, FormTrace(ps[..|ps| - 1]), PartTrace(ps[|ps| - 1]));
  }

  lemma ConcatOne(cs: seq<string>)
    requires |cs| == 1
    ensures Concat(cs) == cs[0]
  {
    assert cs[..0] == [];
  }

  lemma FeedOneChunkPart(a: Acc, p: Part)
    requires a.headers == map[] && |p.chunks| == 1
    ensures var b := FeedAll(a, PartTrace(p));
            && b.sections == a.sections + [Section(HeaderMap(p.headers), Concat(p.chunks))]
            && b.headers == map[]
  {
    hide FeedAll, PartTrace, HeaderMap;
    FeedPart(a, p);
    ConcatOne(p.chunks);
    assert map[] + HeaderMap(p.headers) == HeaderMap(p.headers);
  }

  /** With one chunk for each part, section i carries part i's headers and data and
      nothing of any other part. */
  lemma {:induction false} SectionsOfOneChunkParts(ps: seq<Part>)
    requires OneChunkEach(ps)
    ensures Sections(ps) == IdealSections(ps)
    ensures FeedAll(EMPTY, FormTrace(ps)).headers == map[]
  {
    if ps == [] {
      assert FeedAll(EMPTY, FormTrace(ps)) == EMPTY;
    } else {
      SectionsOfOneChunkParts(ps[..|ps| - 1]);
      FeedForm(ps);
      hide FeedAll, FormTrace, PartTrace, HeaderMap, Concat;
      FeedOneChunkPart(FeedAll(EMPTY, FormTrace(ps[..|ps| - 1])), ps[|ps| - 1]);
    }
  }

  function Chunks(ps: seq<Part>): nat {
    if ps == [] then 0 else Chunks(ps[..|ps| - 1]) + |ps[|ps| - 1].chunks|
  }

  /** The sections of a form are those of its front and those of its last part, of
      which every chunk makes one and every chunk but the first one without headers. */
  lemma LastPartSections(ps: seq<Part>) returns (added: seq<Section>)
    requires ps != []
    ensures Sections(ps) == Sections(ps[..|ps| - 1]) + added
    ensures |added| == |ps[|ps| - 1].chunks|
    ensures forall i | 1 <= i < |added| :: added[i].headers == map[]
  {
    hide FeedAll, FormTrace, PartTrace, HeaderMap;
    var a := FeedAll(EMPTY, FormTrace(ps[..|ps| - 1]));
    FeedForm(ps);
    FeedPart(a, ps[|ps| - 1]);
    added := ChunkSections(a.headers + HeaderMap(ps[|ps| - 1].headers), ps[|ps| - 1].chunks);
  }

  ghost predicate HeaderlessSection(ss: seq<Section>) {
    exists k | 0 <= k < |ss| :: ss[k].headers == map[]
  }

  lemma HeaderlessConcat(ss: seq<Section>, added: seq<Section>)
    ensures HeaderlessSection(ss) || HeaderlessSection(added) ==> HeaderlessSection(ss + added)
  {
    if k :| 0 <= k < |ss| && ss[k].headers == map[] {
      assert (ss + added)[k].headers == map[];
    } else if k :| 0 <= k < |added| && added[k].headers == map[] {
      assert (ss + added)[|ss| + k].headers == map[];
    }
  }

  /** Every chunk makes a section, and a second chunk of a part one without headers. */
  lemma {:induction false} SectionsPerChunk(ps: seq<Part>)
    ensures |Sections(ps)| == Chunks(ps)
    ensures (exists i | 0 <= i < |ps| :: |ps[i].chunks| >= 2) ==> HeaderlessSection(Sections(ps))
  {
    if ps != [] {
      var front := ps[..|ps| - 1];
      SectionsPerChunk(front);
      var added := LastPartSections(ps);
      HeaderlessConcat(Sections(front), added);
      hide Sections;
      if |added| >= 2 {
        assert added[1].headers == map[];
      } else if i :| 0 <= i < |ps| && |ps[i].chunks| >= 2 {
        assert front[i] == ps[i];
      }
    }
  }

  lemma {:induction false} AtMostOneChunk(ps: seq<Part>)
    requires forall i | 0 <= i < |ps| :: |ps[i].chunks| <= 1
    ensures Chunks(ps) <= |ps|
    ensures Chunks(ps) == |ps| ==> OneChunkEach(ps)
  {
    if ps != [] {
      AtMostOneChunk(ps[..|ps| - 1]);
    }
  }

  /** Sections are one for each part exactly when every part came in one chunk,
      given that every part has a header (section 4.2 of RFC 7578 demands one). */
  lemma {:induction false} SectionsMatchPartsIff(ps: seq<Part>)
    requires forall i | 0 <= i < |ps| :: ps[i].headers != []
    ensures Sections(ps) == IdealSections(ps) <==> OneChunkEach(ps)
  {
    if OneChunkEach(ps) {
      SectionsOfOneChunkParts(ps);
    }
    if Sections(ps) == IdealSections(ps) {
      SectionsPerChunk(ps);
      AtMostOneChunk(ps);
    }
  }

  lemma TwoParts(p: Part, q: Part)
    ensures var mid := FeedAll(EMPTY, PartTrace(p));
            Sections([p, q]) == FeedAll(mid, PartTrace(q)).sections
  {
    var ps := [p, q];
    assert ps[..1] == [p] && [p][..0] == [];
    FeedForm([p]);
    FeedForm(ps);
    assert FeedAll(EMPTY, FormTrace([])) == EMPTY;
  }

  lemma OneHeader(h: Header)
    ensures HeaderMap([h]) == map[h.name := Parsed(h.value)]
  {
    assert [h][..0] == [];
  }

  /** The headers of a part for which the parser makes no data callback reach the next
      part's section. */
  lemma SilentPartLeaksHeaders(h: Header, k: Header, d: string)
    requires h.name != k.name
    ensures var ps := [Part([h], []), Part([k], [d])];
            && Sections(ps) == [Section(map[h.name := Parsed(h.value), k.name := Parsed(k.value)], d)]
            && Sections(ps) != IdealSections(ps)
  {
    hide FeedAll, HeaderMap, PartTrace, FormTrace, Parsed, Sections;
    var p, q := Part([h], []), Part([k], [d]);
    TwoParts(p, q);
    OneHeader(h);
    OneHeader(k);
    FeedPart(EMPTY, p);
    var mid := FeedAll(EMPTY, PartTrace(p));
    FeedPart(mid, q);
    var both := map[h.name := Parsed(h.value), k.name := Parsed(k.value)];
    assert mid.headers + HeaderMap(q.headers) == both;
    assert ChunkSections(both, [d]) == [Section(both, d)];
  }
}
