// The whole server: any number of connections over one url table, their steps
// interleaved in any order. A request is handled in one step, since a handler
// touches the table at most once and each connection runs on its own strand
// (src/session.cpp:255-257).
module Connections {
  import opened Text
  import opened Shortener
  import opened Session
  import opened Store
  import Generate

  datatype System = System(table: Table, conns: map<nat, State>)

  datatype Action =
    | Accept(c: nat, kind: Kind)
    | Receive(c: nat, req: Request, env: Env)
    | Complete(c: nat, e: Event)

  predicate CanAct(cfg: Config, s: System, a: Action)
    requires Generate.ValidWords(cfg.words)
  {
    match a
    case Accept(c, _) => c !in s.conns
    case Receive(c, req, env) =>
      && c in s.conns && s.conns[c].reading && |req.body| <= BODY_LIMIT
      && Handle(cfg, s.table, req, env).response.Some?
    case Complete(c, e) => c in s.conns && !e.ReadOk? && Enabled(s.conns[c], e)
  }

  function Act(cfg: Config, s: System, a: Action): System
    requires Generate.ValidWords(cfg.words) && CanAct(cfg, s, a)
  {
    match a
    case Accept(c, kind) => s.(conns := s.conns[c := Started(kind)])
    case Receive(c, req, env) =>
      var o := Handle(cfg, s.table, req, env);
      System(o.table, s.conns[c := Next(s.conns[c], ReadOk(req, o.response.value))])
    case Complete(c, e) => s.(conns := s.conns[c := Next(s.conns[c], e)])
  }

  /** A run from a server without connections over any sound table; `ss` are the
      states it passes through. */
  ghost predicate Executes(cfg: Config, ss: seq<System>, acts: seq<Action>) {
    && Generate.ValidWords(cfg.words)
    && |ss| == |acts| + 1
    && ss[0].conns == map[] && StoreInv(cfg.words, ss[0].table)
    && forall i | 0 <= i < |acts| :: CanAct(cfg, ss[i], acts[i]) && ss[i + 1] == Act(cfg, ss[i], acts[i])
  }

  ghost predicate SystemInv(cfg: Config, s: System) {
    && StoreInv(cfg.words, s.table)
    && (forall c | c in s.conns :: Inv(s.conns[c]))
    && (forall c | c in s.conns :: forall k | 0 <= k < |s.conns[c].answers| ::
          s.conns[c].answers[k].reply.Redirect? ==> HttpPrefix(s.conns[c].answers[k].reply.location))
  }

  // ---- One step ---------------------------------------------------------------------

  /** A connection's histories only grow. */
  ghost predicate Extends(s: State, s': State) {
    s.requests <= s'.requests && s.answers <= s'.answers && s.written <= s'.written
  }

  lemma NextExtends(s: State, e: Event)
    requires Enabled(s, e)
    ensures Extends(s, Next(s, e))
    ensures Next(s, e).answers == s.answers + if e.ReadOk? then [e.answer] else []
    ensures Next(s, e).requests == s.requests + if e.ReadOk? then [e.req] else []
  {
  }

  lemma ActKeepsInv(cfg: Config, s: System, a: Action)
    requires Generate.ValidWords(cfg.words) && CanAct(cfg, s, a) && SystemInv(cfg, s)
    ensures SystemInv(cfg, Act(cfg, s, a))
  {
    hide StoreInv, Handle, Inv, Next, Enabled, HttpPrefix;
    match a
    case Accept(c, kind) =>
      ReachableInv(kind, [], Started(kind));
    case Receive(c, req, env) =>
      var answer := Handle(cfg, s.table, req, env).response.value;
      RequestKeepsStore(cfg, s.table, req, env);
      RedirectsAreHttp(cfg, s.table, req, env);
      ReceiveStep(s.conns[c], req, answer);
    case Complete(c, e) =>
      StepKeepsInv(s.conns[c], e);
      NextExtends(s.conns[c], e);
  }

  lemma ReceiveStep(s: State, req: Request, answer: Response)
    requires Inv(s) && s.reading && |req.body| <= BODY_LIMIT
    ensures Enabled(s, ReadOk(req, answer)) && Inv(Next(s, ReadOk(req, answer)))
    ensures Next(s, ReadOk(req, answer)).answers == s.answers + [answer]
    ensures Next(s, ReadOk(req, answer)).requests == s.requests + [req]
  {
    StepKeepsInv(s, ReadOk(req, answer));
  }

  lemma ActExtends(cfg: Config, s: System, a: Action)
    requires Generate.ValidWords(cfg.words) && CanAct(cfg, s, a) && SystemInv(cfg, s)
    ensures var s' := Act(cfg, s, a);
            && (forall t | t in s.table :: t in s'.table && s'.table[t] == s.table[t])
            && (forall c | c in s.conns :: c in s'.conns && Extends(s.conns[c], s'.conns[c]))
  {
    hide StoreInv, Handle, Inv, Next, Enabled;
    match a
    case Accept(c, kind) =>
    case Receive(c, req, env) =>
      RequestKeepsStore(cfg, s.table, req, env);
      var answer := Handle(cfg, s.table, req, env).response.value;
      ReceiveStep(s.conns[c], req, answer);
      NextExtends(s.conns[c], ReadOk(req, answer));
    case Complete(c, e) =>
      NextExtends(s.conns[c], e);
  }

  // ---- Whole runs --------------------------------------------------------------------------

  /** Every state of every run: a sound table, every session within its invariant,
      every redirect to an http or https url. */
  lemma {:induction false} RunInv(cfg: Config, ss: seq<System>, acts: seq<Action>, n: nat)
    requires Executes(cfg, ss, acts) && n <= |acts|
    ensures SystemInv(cfg, ss[n])
  {
    if n > 0 {
      RunInv(cfg, ss, acts, n - 1);
      ActKeepsInv(cfg, ss[n - 1], acts[n - 1]);
    }
  }

  /** Rows and histories are never taken back. */
  lemma {:induction false} RunExtends(cfg: Config, ss: seq<System>, acts: seq<Action>, i: nat, j: nat)
    requires Executes(cfg, ss, acts) && i <= j <= |acts|
    ensures forall t | t in ss[i].table :: t in ss[j].table && ss[j].table[t] == ss[i].table[t]
    ensures forall c | c in ss[i].conns :: c in ss[j].conns && Extends(ss[i].conns[c], ss[j].conns[c])
  {
    if i < j {
      RunExtends(cfg, ss, acts, i, j - 1);
      RunInv(cfg, ss, acts, j - 1);
      ActExtends(cfg, ss[j - 1], acts[j - 1]);
    }
  }

  /** Every Location on the wire of any connection is an http or https url. */
  lemma LocationsOnTheWire(cfg: Config, ss: seq<System>, acts: seq<Action>, n: nat, c: nat, k: nat)
    requires Executes(cfg, ss, acts) && n <= |acts|
    requires c in ss[n].conns && k < |ss[n].conns[c].written|
    requires ss[n].conns[c].written[k].reply.Redirect?
    ensures HttpPrefix(ss[n].conns[c].written[k].reply.location)
  {
    RunInv(cfg, ss, acts, n);
    var s := ss[n].conns[c];
    assert s.written[k] == s.answers[k];
  }

  /** The answer to a request is recorded at its place for good. */
  lemma AnswerRecorded(cfg: Config, ss: seq<System>, acts: seq<Action>, j: nat, m: nat)
    requires Executes(cfg, ss, acts) && j < m <= |acts| && acts[j].Receive?
    ensures var c := acts[j].c;
            && c in ss[j].conns && c in ss[m].conns
            && var k := |ss[j].conns[c].requests|;
               && k < |ss[m].conns[c].answers|
               && Some(ss[m].conns[c].answers[k]) == Handle(cfg, ss[j].table, acts[j].req, acts[j].env).response
  {
    hide Handle;
    var c := acts[j].c;
    RunInv(cfg, ss, acts, j);
    RunExtends(cfg, ss, acts, j + 1, m);
    assert CanAct(cfg, ss[j], acts[j]);
    var answer := Handle(cfg, ss[j].table, acts[j].req, acts[j].env).response.value;
    ReceiveStep(ss[j].conns[c], acts[j].req, answer);
    assert ss[j + 1].conns[c].answers[|ss[j].conns[c].requests|] == answer;
  }

  /** What a request handled at step j is answered is what the wire carries at its
      place, at any later time it has been written. */
  lemma AnswerReachesWire(cfg: Config, ss: seq<System>, acts: seq<Action>, j: nat, m: nat)
    requires Executes(cfg, ss, acts) && j < m <= |acts| && acts[j].Receive?
    ensures var c := acts[j].c;
            && c in ss[j].conns && c in ss[m].conns
            && var k := |ss[j].conns[c].requests|;
               k < |ss[m].conns[c].written| ==>
                 Some(ss[m].conns[c].written[k]) == Handle(cfg, ss[j].table, acts[j].req, acts[j].env).response
  {
    hide Handle;
    AnswerRecorded(cfg, ss, acts, j, m);
    RunInv(cfg, ss, acts, m);
  }

  /** Redirect permanence, end to end: once a post on any connection has stored url u
      under token t, a later GET of /t on any connection, SQLite permitting, is answered
      on that connection's wire, in the request's own place, with a redirect to u,
      whatever happened in between. */
  lemma PostedUrlIsRedirectedTo(cfg: Config, ss: seq<System>, acts: seq<Action>, i: nat, j: nat, m: nat)
    requires Executes(cfg, ss, acts) && i < j < m <= |acts|
    requires acts[i].Receive? && Stores(cfg, ss[i].table, acts[i].req, acts[i].env)
    requires acts[j].Receive? && acts[j].req.verb == Get
    requires acts[j].req.target == "/" + Generate.Token(cfg.words, acts[i].env.stream)
    requires acts[j].env.prepareOk && acts[j].env.bindTokenOk && acts[j].env.stepOk
    ensures var b := acts[j].c;
            && b in ss[j].conns && b in ss[m].conns
            && var k := |ss[j].conns[b].requests|;
               k < |ss[m].conns[b].written| ==>
                 ss[m].conns[b].written[k]
                 == Respond(acts[j].req, Redirect(CStr(PostedUrl(acts[i].req, acts[i].env).url)))
  {
    hide Stores, Handle, Generate.Token, PostedUrl, StoreInv;
    var t := Generate.Token(cfg.words, acts[i].env.stream);
    TableAfterRequest(cfg, ss[i].table, acts[i].req, acts[i].env);
    assert CanAct(cfg, ss[i], acts[i]);
    assert t in ss[i + 1].table;
    RunExtends(cfg, ss, acts, i + 1, j);
    RunInv(cfg, ss, acts, j);
    StoredTokenRedirects(cfg, ss[j].table, t, acts[j].req, acts[j].env);
    AnswerReachesWire(cfg, ss, acts, j, m);
  }

  /** A url once stored is refused at every later post, also when it differs after a
      NUL from what was posted first. */
  lemma StoredUrlIsRefusedForever(cfg: Config, ss: seq<System>, acts: seq<Action>, i: nat, j: nat, t: string)
    requires Executes(cfg, ss, acts) && i <= j < |acts| && t in ss[i].table
    requires acts[j].Receive? && PostsTo(acts[j].req) && PostedUrl(acts[j].req, acts[j].env).Found?
    requires CStr(PostedUrl(acts[j].req, acts[j].env).url) == ss[i].table[t]
    ensures ss[j + 1].table == ss[j].table
    ensures Handle(cfg, ss[j].table, acts[j].req, acts[j].env).response
         == Some(Respond(acts[j].req, ServerError("SQL error: " + acts[j].env.error)))
  {
    RunExtends(cfg, ss, acts, i, j);
    RunInv(cfg, ss, acts, j);
    assert HttpPrefix(ss[j].table[t]);
    PrefixOfCut(PostedUrl(acts[j].req, acts[j].env).url);
    hide Handle, PostedUrl, HttpPrefix, Generate.IsToken, CStr;
    StoredUrlIsRefused(cfg, ss[j].table, t, acts[j].req, acts[j].env);
    assert CanAct(cfg, ss[j], acts[j]);
  }

  lemma PrefixOfCut(url: string)
    requires HttpPrefix(CStr(url))
    ensures HttpPrefix(url)
  {
    assert CStr(url) <= url;
  }

  /** The table holds nothing but what it started with and what was posted. */
  lemma {:induction false} RowsWerePosted(cfg: Config, ss: seq<System>, acts: seq<Action>, n: nat, t: string)
    requires Executes(cfg, ss, acts) && n <= |acts| && t in ss[n].table
    ensures t in ss[0].table ||
            exists i :: && 0 <= i < n && acts[i].Receive?
                        && Stores(cfg, ss[i].table, acts[i].req, acts[i].env)
                        && t == Generate.Token(cfg.words, acts[i].env.stream)
                        && ss[n].table[t] == CStr(PostedUrl(acts[i].req, acts[i].env).url)
  {
    hide Stores, Handle, Generate.Token, PostedUrl;
    if n > 0 {
      var a := acts[n - 1];
      assert CanAct(cfg, ss[n - 1], a);
      if t in ss[n - 1].table {
        RowsWerePosted(cfg, ss, acts, n - 1, t);
        RunExtends(cfg, ss, acts, n - 1, n);
      } else {
        TableAfterRequest(cfg, ss[n - 1].table, a.req, a.env);
      }
    }
  }

  // ---- The sequential server -------------------------------------------------------------------

  /** A request as a server without queues or connections' own pace would see it. */
  datatype Received = Received(c: nat, req: Request, env: Env)

  function Log(acts: seq<Action>): seq<Received> {
    if acts == [] then []
    else
      var a := acts[|acts| - 1];
      Log(acts[..|acts| - 1]) + if a.Receive? then [Received(a.c, a.req, a.env)] else []
  }

  /** The table after handling the log one request at a time. */
  function SequentialTable(cfg: Config, table: Table, log: seq<Received>): Table
    requires Generate.ValidWords(cfg.words)
  {
    if log == [] then table
    else
      var r := log[|log| - 1];
      Handle(cfg, SequentialTable(cfg, table, log[..|log| - 1]), r.req, r.env).table
  }

  /** The answers it gives connection c. */
  function SequentialAnswers(cfg: Config, table: Table, log: seq<Received>, c: nat): seq<Response>
    requires Generate.ValidWords(cfg.words)
  {
    if log == [] then []
    else
      var front, r := log[..|log| - 1], log[|log| - 1];
      var answer := Handle(cfg, SequentialTable(cfg, table, front), r.req, r.env).response;
      SequentialAnswers(cfg, table, front, c) + if r.c == c && answer.Some? then [answer.value] else []
  }

  ghost predicate Agrees(cfg: Config, table: Table, log: seq<Received>, s: System)
    requires Generate.ValidWords(cfg.words)
  {
    && s.table == SequentialTable(cfg, table, log)
    && (forall c | c in s.conns :: s.conns[c].answers == SequentialAnswers(cfg, table, log, c))
    && (forall c | c !in s.conns :: SequentialAnswers(cfg, table, log, c) == [])
  }

  lemma SequentialStep(cfg: Config, table: Table, log: seq<Received>, r: Received, c: nat)
    requires Generate.ValidWords(cfg.words)
    ensures var o := Handle(cfg, SequentialTable(cfg, table, log), r.req, r.env);
            && SequentialTable(cfg, table, log + [r]) == o.table
            && SequentialAnswers(cfg, table, log + [r], c)
               == SequentialAnswers(cfg, table, log, c)
                  + if r.c == c && o.response.Some? then [o.response.value] else []
  {
    hide Handle;
    assert (log + [r])[..|log|] == log;
  }

  lemma AgreesReceive(cfg: Config, table: Table, log: seq<Received>, s: System, a: Action)
    requires Generate.ValidWords(cfg.words) && CanAct(cfg, s, a) && Agrees(cfg, table, log, s) && a.Receive?
    ensures Agrees(cfg, table, log + [Received(a.c, a.req, a.env)], Act(cfg, s, a))
  {
    hide Handle, Next, SequentialTable, SequentialAnswers;
    var r := Received(a.c, a.req, a.env);
    NextExtends(s.conns[a.c], ReadOk(a.req, Handle(cfg, s.table, a.req, a.env).response.value));
    forall c: nat ensures SequentialAnswers(cfg, table, log + [r], c) ==
                          if c in s.conns then Act(cfg, s, a).conns[c].answers else [] {
      SequentialStep(cfg, table, log, r, c);
    }
    SequentialStep(cfg, table, log, r, 0);
  }

  lemma AgreesStep(cfg: Config, table: Table, log: seq<Received>, s: System, a: Action)
    requires Generate.ValidWords(cfg.words) && CanAct(cfg, s, a) && Agrees(cfg, table, log, s)
    ensures Agrees(cfg, table, log + if a.Receive? then [Received(a.c, a.req, a.env)] else [], Act(cfg, s, a))
  {
    hide Handle, Next, SequentialTable, SequentialAnswers;
    match a
    case Accept(c, kind) =>
      assert log + [] == log;
    case Complete(c, e) =>
      assert log + [] == log;
      NextExtends(s.conns[c], e);
    case Receive(_, _, _) =>
      AgreesReceive(cfg, table, log, s, a);
  }

  lemma {:induction false} RunAgrees(cfg: Config, ss: seq<System>, acts: seq<Action>, n: nat)
    requires Executes(cfg, ss, acts) && n <= |acts|
    ensures Agrees(cfg, ss[0].table, Log(acts[..n]), ss[n])
  {
    if n > 0 {
      RunAgrees(cfg, ss, acts, n - 1);
      hide Agrees, CanAct, Act;
      assert acts[..n][..n - 1] == acts[..n - 1];
      AgreesStep(cfg, ss[0].table, Log(acts[..n - 1]), ss[n - 1], acts[n - 1]);
    }
  }

  /** Pipelining over concurrent connections refines the sequential server: after any
      run the table is the one it would have, and what each connection has written
      followed by what it still has queued is what it would have answered. */
  lemma RefinesSequentialServer(cfg: Config, ss: seq<System>, acts: seq<Action>, n: nat, c: nat)
    requires Executes(cfg, ss, acts) && n <= |acts| && c in ss[n].conns
    ensures var log := Log(acts[..n]);
            && ss[n].table == SequentialTable(cfg, ss[0].table, log)
            && ss[n].conns[c].written + Pending(ss[n].conns[c])
               == SequentialAnswers(cfg, ss[0].table, log, c)
  {
    RunAgrees(cfg, ss, acts, n);
    RunInv(cfg, ss, acts, n);
  }

  // ---- Each connection is a run of the session --------------------------------------------------------

  /** What an action is to connection c. */
  function EventOf(cfg: Config, s: System, a: Action, c: nat): seq<Event>
    requires Generate.ValidWords(cfg.words)
  {
    match a
    case Accept(_, _) => []
    case Receive(d, req, env) =>
      var r := Handle(cfg, s.table, req, env).response;
      if d == c && r.Some? then [ReadOk(req, r.value)] else []
    case Complete(d, e) => if d == c then [e] else []
  }

  /** What happened to connection c between states i and n. */
  function EventsOf(cfg: Config, ss: seq<System>, acts: seq<Action>, i: nat, n: nat, c: nat): seq<Event>
    requires Generate.ValidWords(cfg.words)
    requires |ss| == |acts| + 1 && i <= n <= |acts|
  {
    if n == i then [] else EventsOf(cfg, ss, acts, i, n - 1, c) + EventOf(cfg, ss[n - 1], acts[n - 1], c)
  }

  /** One step of the server is at most one event of a connection. */
  lemma ActIsEvent(cfg: Config, s: System, a: Action, c: nat)
    requires Generate.ValidWords(cfg.words) && CanAct(cfg, s, a) && c in s.conns
    ensures var s', es := Act(cfg, s, a), EventOf(cfg, s, a, c);
            && c in s'.conns
            && (if es == [] then s'.conns[c] == s.conns[c]
                else |es| == 1 && Enabled(s.conns[c], es[0]) && s'.conns[c] == Next(s.conns[c], es[0]))
  {
    hide Handle, Next;
  }

  lemma ActExtendsRun(cfg: Config, s: System, a: Action, c: nat, s0: State, es: seq<Event>)
    requires Generate.ValidWords(cfg.words) && CanAct(cfg, s, a) && c in s.conns
    requires Runs(s0, es, s.conns[c])
    ensures c in Act(cfg, s, a).conns
    ensures Runs(s0, es + EventOf(cfg, s, a, c), Act(cfg, s, a).conns[c])
  {
    hide CanAct, Act, EventOf, Next, Enabled, Runs;
    ActIsEvent(cfg, s, a, c);
    var e := EventOf(cfg, s, a, c);
    if e == [] {
      assert es + e == es;
    } else {
      RunsSnoc(s0, es, s.conns[c], e[0]);
      assert e == [e[0]];
    }
  }

  /** Between any two states a connection goes through a run of the session. */
  lemma {:induction false} SegmentIsRun(cfg: Config, ss: seq<System>, acts: seq<Action>, i: nat, n: nat, c: nat)
    requires Executes(cfg, ss, acts) && i <= n <= |acts| && c in ss[i].conns
    ensures c in ss[n].conns && Runs(ss[i].conns[c], EventsOf(cfg, ss, acts, i, n, c), ss[n].conns[c])
  {
    hide CanAct, Act, EventOf, StoreInv;
    if i < n {
      SegmentIsRun(cfg, ss, acts, i, n - 1, c);
      hide Runs;
      ActExtendsRun(cfg, ss[n - 1], acts[n - 1], c, ss[i].conns[c], EventsOf(cfg, ss, acts, i, n - 1, c));
    }
  }

  /** What holds of every run of a session holds of every connection of the server. */
  lemma {:induction false} ConnectionIsRun(cfg: Config, ss: seq<System>, acts: seq<Action>, n: nat, c: nat)
    requires Executes(cfg, ss, acts) && n <= |acts| && c in ss[n].conns
    ensures exists kind, es :: Runs(Started(kind), es, ss[n].conns[c])
  {
    hide Handle, Next, Enabled, EventOf, StoreInv;
    var a := acts[n - 1];
    assert CanAct(cfg, ss[n - 1], a);
    if c in ss[n - 1].conns {
      ConnectionIsRun(cfg, ss, acts, n - 1, c);
      hide Runs, CanAct, Act;
      var kind, es :| Runs(Started(kind), es, ss[n - 1].conns[c]);
      ActExtendsRun(cfg, ss[n - 1], a, c, Started(kind), es);
    } else {
      assert Runs(Started(a.kind), [], ss[n].conns[c]);
    }
  }

  /** The events of a connection are its own actions, each with its answer. */
  lemma {:induction false} EventsAreActs(
    cfg: Config, ss: seq<System>, acts: seq<Action>, i: nat, n: nat, c: nat, e: Event)
    requires Generate.ValidWords(cfg.words) && |ss| == |acts| + 1 && i <= n <= |acts|
    ensures e in EventsOf(cfg, ss, acts, i, n, c) <==>
              exists k ::
                && i <= k < n
                && (|| acts[k] == Complete(c, e)
                    || (&& acts[k].Receive? && acts[k].c == c && e.ReadOk? && e.req == acts[k].req
                        && Some(e.answer) == Handle(cfg, ss[k].table, acts[k].req, acts[k].env).response))
  {
    hide Handle;
    if i < n {
      EventsAreActs(cfg, ss, acts, i, n - 1, c, e);
      hide EventsOf;
      assert EventsOf(cfg, ss, acts, i, n, c)
          == EventsOf(cfg, ss, acts, i, n - 1, c) + EventOf(cfg, ss[n - 1], acts[n - 1], c) by {
        EventsSnoc(cfg, ss, acts, i, n, c);
      }
    }
  }

  lemma EventsSnoc(cfg: Config, ss: seq<System>, acts: seq<Action>, i: nat, n: nat, c: nat)
    requires Generate.ValidWords(cfg.words) && |ss| == |acts| + 1 && i < n <= |acts|
    ensures EventsOf(cfg, ss, acts, i, n, c)
         == EventsOf(cfg, ss, acts, i, n - 1, c) + EventOf(cfg, ss[n - 1], acts[n - 1], c)
  {
    hide EventOf;
  }

  /** How a run may go on: a new connection, a request on a connection that reads, short
      enough and such that no exception escapes, or the end of an operation that is
      outstanding. */
  lemma RunExtendsIff(cfg: Config, ss: seq<System>, acts: seq<Action>, a: Action)
    requires Executes(cfg, ss, acts)
    ensures var conns := ss[|acts|].conns;
            CanAct(cfg, ss[|acts|], a) <==>
            match a
            case Accept(c, _) => c !in conns
            case Receive(c, req, _) =>
              && c in conns && conns[c].reading && |req.body| <= 10000
              && !(&& PostsTo(req) && req.contentType == "application/x-www-form-urlencoded"
                   && Count(req.body, '&') > 1000)
            case Complete(c, e) =>
              && c in conns
              && (match e
                  case HandshakeOk => conns[c].phase.Shaking?
                  case HandshakeError => conns[c].phase.Shaking?
                  case ReadOk(_, _) => false
                  case ReadEof => conns[c].reading
                  case ReadError => conns[c].reading
                  case WriteOk => conns[c].flight.Some?
                  case WriteError => conns[c].flight.Some?
                  case ShutdownOk => conns[c].shutdowns > 0
                  case ShutdownError => conns[c].shutdowns > 0)
  {
    RunInv(cfg, ss, acts, |acts|);
    if a.Receive? {
      ThrowsIff(cfg, ss[|acts|].table, a.req, a.env);
    }
    hide Executes, Handle, PostsTo, Count, StoreInv, Conserved, Ended;
  }

  // ---- Answers are served ---------------------------------------------------------------------------

  /** The answer to the request handled at step j waits its turn on its connection:
      writing goes on there, and nothing ahead of it closes the connection. */
  ghost predicate AnswerDue(ss: seq<System>, acts: seq<Action>, j: nat) {
    && j < |acts| && |ss| == |acts| + 1 && acts[j].Receive?
    && acts[j].c in ss[j].conns && acts[j].c in ss[j + 1].conns
    && Due(ss[j + 1].conns[acts[j].c], |ss[j].conns[acts[j].c].requests|)
  }

  /** Progress of the whole server: while the writes of its connection succeed, an
      answer that is due is written after those ahead of it, at most seven, and until
      then a write is outstanding there. What other connections do does not matter. */
  lemma AnswerIsServed(cfg: Config, ss: seq<System>, acts: seq<Action>, j: nat, m: nat)
    requires Executes(cfg, ss, acts) && j < m <= |acts| && AnswerDue(ss, acts, j)
    requires WritesSucceed(EventsOf(cfg, ss, acts, j + 1, m, acts[j].c))
    ensures var c := acts[j].c;
            var k, ahead := |ss[j].conns[c].requests|, |ss[j].conns[c].requests| - |ss[j + 1].conns[c].written|;
            && c in ss[m].conns && ahead < LIMIT
            && (k < |ss[m].conns[c].written| <==> Writes(EventsOf(cfg, ss, acts, j + 1, m, c)) > ahead)
            && (if k < |ss[m].conns[c].written|
                then Some(ss[m].conns[c].written[k]) == Handle(cfg, ss[j].table, acts[j].req, acts[j].env).response
                else ss[m].conns[c].flight.Some?)
  {
    hide Handle, EventsOf, Due, Runs;
    var c := acts[j].c;
    SegmentIsRun(cfg, ss, acts, j + 1, m, c);
    AnswerReachesWire(cfg, ss, acts, j, m);
    hide Executes;
    DueIsMoving(ss[j + 1].conns[c], |ss[j].conns[c].requests|);
    DueIsWritten(ss[j + 1].conns[c], |ss[j].conns[c].requests|,
                 EventsOf(cfg, ss, acts, j + 1, m, c), ss[m].conns[c]);
  }

  /** So the redirect of a stored url is not only right once written: it is written, as
      soon as its connection has made the writes ahead of it and its own. */
  lemma RedirectIsServed(cfg: Config, ss: seq<System>, acts: seq<Action>, i: nat, j: nat, m: nat)
    requires Executes(cfg, ss, acts) && i < j < m <= |acts|
    requires acts[i].Receive? && Stores(cfg, ss[i].table, acts[i].req, acts[i].env)
    requires acts[j].Receive? && acts[j].req.verb == Get
    requires acts[j].req.target == "/" + Generate.Token(cfg.words, acts[i].env.stream)
    requires acts[j].env.prepareOk && acts[j].env.bindTokenOk && acts[j].env.stepOk
    requires AnswerDue(ss, acts, j) && WritesSucceed(EventsOf(cfg, ss, acts, j + 1, m, acts[j].c))
    ensures var b := acts[j].c;
            var k, ahead := |ss[j].conns[b].requests|, |ss[j].conns[b].requests| - |ss[j + 1].conns[b].written|;
            && b in ss[m].conns && ahead < LIMIT
            && (Writes(EventsOf(cfg, ss, acts, j + 1, m, b)) > ahead ==>
                  && k < |ss[m].conns[b].written|
                  && ss[m].conns[b].written[k]
                     == Respond(acts[j].req, Redirect(CStr(PostedUrl(acts[i].req, acts[i].env).url))))
  {
    hide Stores, Handle, Generate.Token, PostedUrl, StoreInv, EventsOf, AnswerDue, Executes;
    PostedUrlIsRedirectedTo(cfg, ss, acts, i, j, m);
    AnswerIsServed(cfg, ss, acts, j, m);
  }

  // ---- Closing ------------------------------------------------------------------------------------------

  /** The answer to the request handled at step j is written at step i. */
  ghost predicate WrittenAt(ss: seq<System>, acts: seq<Action>, j: nat, i: nat) {
    && j < i < |acts| && |ss| == |acts| + 1 && acts[j].Receive?
    && acts[i] == Complete(acts[j].c, WriteOk)
    && acts[j].c in ss[j].conns && acts[j].c in ss[i].conns && acts[j].c in ss[i + 1].conns
    && |ss[i].conns[acts[j].c].written| == |ss[j].conns[acts[j].c].requests|
  }

  lemma WriteCompletes(cfg: Config, ss: seq<System>, acts: seq<Action>, i: nat, c: nat)
    requires Executes(cfg, ss, acts) && i < |acts| && acts[i] == Complete(c, WriteOk)
    ensures c in ss[i].conns && c in ss[i + 1].conns
    ensures Inv(ss[i].conns[c]) && Enabled(ss[i].conns[c], WriteOk)
    ensures ss[i + 1].conns[c] == Next(ss[i].conns[c], WriteOk) && Inv(ss[i + 1].conns[c])
  {
    hide Handle, StoreInv;
    RunInv(cfg, ss, acts, i);
    assert CanAct(cfg, ss[i], acts[i]);
    hide Inv, Enabled, Next;
    ActIsEvent(cfg, ss[i], acts[i], c);
    StepKeepsInv(ss[i].conns[c], WriteOk);
  }

  /** Whether a connection goes on after an answer is written depends on the request
      alone: it closes, and nothing more is ever written on it, exactly when the
      request asked for that and was not redirected, or was redirected under a version
      before 1.1; otherwise the next answer's write starts. */
  lemma ConnectionClosesIff(cfg: Config, ss: seq<System>, acts: seq<Action>, j: nat, i: nat, m: nat)
    requires Executes(cfg, ss, acts) && WrittenAt(ss, acts, j, i) && i < m <= |acts|
    ensures var c := acts[j].c;
            var s, s' := ss[i].conns[c], ss[i + 1].conns[c];
            && c in ss[m].conns
            && (s'.stop.Closed? <==> Closes(acts[j].req, acts[j].env))
            && (s'.stop.Closed? ==> s'.eofs == s.eofs + 1 && ss[m].conns[c].written == s'.written)
            && (!s'.stop.Closed? ==>
                  && s'.stop.NotStopped? && s'.eofs == s.eofs
                  && (|s.answers| > |s.written| + 1 ==> s'.flight.Some?))
  {
    hide Handle, Closes, Inv, Next, Enabled, Runs, EventsOf, Executes;
    var c := acts[j].c;
    assert Generate.ValidWords(cfg.words) by { ValidRun(cfg, ss, acts); }
    WriteCompletes(cfg, ss, acts, i, c);
    AnswerRecorded(cfg, ss, acts, j, i);
    AnswerClosesIff(cfg, ss[j].table, acts[j].req, acts[j].env);
    WriteStep(ss[i].conns[c]);
    SegmentIsRun(cfg, ss, acts, i + 1, m, c);
    if ss[i + 1].conns[c].stop.Closed? {
      StoppedForever(ss[i + 1].conns[c], EventsOf(cfg, ss, acts, i + 1, m, c), ss[m].conns[c]);
    }
  }

  lemma ValidRun(cfg: Config, ss: seq<System>, acts: seq<Action>)
    requires Executes(cfg, ss, acts)
    ensures |ss| == |acts| + 1 && Generate.ValidWords(cfg.words)
  {
  }

  lemma RequestIsCounted(cfg: Config, ss: seq<System>, acts: seq<Action>, j: nat, i: nat)
    requires Executes(cfg, ss, acts) && j < i <= |acts| && acts[j].Receive?
    ensures acts[j].c in ss[j].conns && acts[j].c in ss[i].conns
    ensures |ss[j].conns[acts[j].c].requests| < |ss[i].conns[acts[j].c].requests|
  {
    hide Handle;
    AnswerRecorded(cfg, ss, acts, j, i);
    RunInv(cfg, ss, acts, i);
  }

  /** A request behind one that closes its connection is handled all the same, one of at
      most seven, and its answer is never written (section 9.6 of RFC 9112). */
  lemma NeverAnsweredBehindClose(cfg: Config, ss: seq<System>, acts: seq<Action>, j: nat, i: nat, n: nat)
    requires Executes(cfg, ss, acts) && j < i < n <= |acts|
    requires acts[j].Receive? && Closes(acts[j].req, acts[j].env)
    requires acts[i].Receive? && acts[i].c == acts[j].c
    ensures var c := acts[j].c;
            && c in ss[j].conns && c in ss[i].conns && c in ss[n].conns
            && var k, k' := |ss[j].conns[c].requests|, |ss[i].conns[c].requests|;
               k < k' < k + LIMIT && |ss[n].conns[c].written| <= k'
  {
    hide Handle, Closes, StoreInv;
    var c := acts[j].c;
    RequestIsCounted(cfg, ss, acts, j, i);
    RequestIsCounted(cfg, ss, acts, i, n);
    AnswerRecorded(cfg, ss, acts, j, n);
    AnswerClosesIff(cfg, ss[j].table, acts[j].req, acts[j].env);
    RunInv(cfg, ss, acts, n);
    hide Executes, Inv;
    AnswersBehind(ss[n].conns[c], |ss[j].conns[c].requests|);
  }

  // ---- Locations on one line ------------------------------------------------------------------------------

  predicate OneLineRows(table: Table) {
    forall t | t in table :: OneLine(table[t])
  }

  /** What the action stores, if anything, is on one line. */
  ghost predicate StoresOneLine(cfg: Config, s: System, a: Action)
    requires Generate.ValidWords(cfg.words)
  {
    a.Receive? && Stores(cfg, s.table, a.req, a.env) ==> OneLine(CStr(PostedUrl(a.req, a.env).url))
  }

  /** The urls stored up to state n were all on one line. */
  ghost predicate PostedOnOneLine(cfg: Config, ss: seq<System>, acts: seq<Action>, n: nat)
    requires Generate.ValidWords(cfg.words) && |ss| == |acts| + 1 && n <= |acts|
  {
    forall i | 0 <= i < n :: StoresOneLine(cfg, ss[i], acts[i])
  }

  lemma StoredRow(cfg: Config, s: System, a: Action)
    requires Generate.ValidWords(cfg.words) && CanAct(cfg, s, a)
    ensures Act(cfg, s, a).table ==
            if a.Receive? && Stores(cfg, s.table, a.req, a.env)
            then s.table[Generate.Token(cfg.words, a.env.stream) := CStr(PostedUrl(a.req, a.env).url)]
            else s.table
    ensures a.Receive? && Stores(cfg, s.table, a.req, a.env) ==> Generate.Token(cfg.words, a.env.stream) !in s.table
  {
    hide Handle, Generate.Token, PostedUrl;
    if a.Receive? {
      TableAfterRequest(cfg, s.table, a.req, a.env);
    }
  }

  lemma OneMoreRow(table: Table, t: string, url: string)
    requires t !in table
    ensures OneLineRows(table[t := url]) <==> OneLineRows(table) && OneLine(url)
  {
    hide OneLine;
    var table' := table[t := url];
    assert forall u | u in table :: table'[u] == table[u];
    assert table'[t] == url;
  }

  lemma RowStaysOnOneLineIff(cfg: Config, s: System, a: Action)
    requires Generate.ValidWords(cfg.words) && CanAct(cfg, s, a)
    ensures OneLineRows(Act(cfg, s, a).table) <==> OneLineRows(s.table) && StoresOneLine(cfg, s, a)
  {
    StoredRow(cfg, s, a);
    hide Stores, Generate.Token, PostedUrl, CanAct, Act, OneLine, OneLineRows, CStr;
    if a.Receive? && Stores(cfg, s.table, a.req, a.env) {
      OneMoreRow(s.table, Generate.Token(cfg.words, a.env.stream), CStr(PostedUrl(a.req, a.env).url));
    }
  }

  /** A url with a line break in it is stored as it is: the table is free of line breaks
      exactly when it started so and no url stored has one before its first NUL. */
  lemma {:induction false} RowsOnOneLineIff(cfg: Config, ss: seq<System>, acts: seq<Action>, n: nat)
    requires Executes(cfg, ss, acts) && n <= |acts|
    ensures OneLineRows(ss[n].table) <==> OneLineRows(ss[0].table) && PostedOnOneLine(cfg, ss, acts, n)
  {
    hide CanAct, Act, OneLineRows, StoresOneLine, StoreInv;
    if n > 0 {
      RowsOnOneLineIff(cfg, ss, acts, n - 1);
      RowStaysOnOneLineIff(cfg, ss[n - 1], acts[n - 1]);
    }
  }

  lemma FallbackIsOneLine()
    ensures OneLine(FALLBACK)
  {
    assert OneLine("https://") && OneLine("www.youtube.com") && OneLine("/watch?v=");
    assert OneLine("dQw4w9WgXcQ") && OneLine("?autoplay=1");
  }

  /** A Location is on one line whenever the table is when its request is handled. */
  lemma LocationOnOneLine(cfg: Config, table: Table, req: Request, env: Env)
    requires Generate.ValidWords(cfg.words) && OneLineRows(table)
    ensures var r := Handle(cfg, table, req, env).response;
            r.Some? && r.value.reply.Redirect? ==> OneLine(r.value.reply.location)
  {
    hide ROUTES, FirstMatch, GuardAccepts, HandlePost, HandleFile, HandleGetTemplate, FALLBACK, OneLine;
    OnlyUrlsRedirect(cfg, table, req, env);
    FallbackIsOneLine();
    CutsStayOnOneLine();
  }

  lemma CutsStayOnOneLine()
    ensures forall s | OneLine(s) :: OneLine(CStr(s))
  {
  }

  predicate OneLineLocations(answers: seq<Response>) {
    forall k | 0 <= k < |answers| && answers[k].reply.Redirect? :: OneLine(answers[k].reply.location)
  }

  /** And then every Location given on any connection is on one line. */
  lemma {:induction false} LocationsOnOneLine(cfg: Config, ss: seq<System>, acts: seq<Action>, n: nat)
    requires Executes(cfg, ss, acts) && n <= |acts|
    requires OneLineRows(ss[0].table) && PostedOnOneLine(cfg, ss, acts, n)
    ensures forall c | c in ss[n].conns :: OneLineLocations(ss[n].conns[c].answers)
  {
    if n > 0 {
      LocationsOnOneLine(cfg, ss, acts, n - 1);
      RowsOnOneLineIff(cfg, ss, acts, n - 1);
      assert CanAct(cfg, ss[n - 1], acts[n - 1]);
      hide PostedOnOneLine, OneLineRows, Executes;
      OneLineStep(cfg, ss[n - 1], acts[n - 1]);
    }
  }

  lemma OneLineStep(cfg: Config, s: System, a: Action)
    requires Generate.ValidWords(cfg.words) && CanAct(cfg, s, a) && OneLineRows(s.table)
    requires forall c | c in s.conns :: OneLineLocations(s.conns[c].answers)
    ensures forall c | c in Act(cfg, s, a).conns :: OneLineLocations(Act(cfg, s, a).conns[c].answers)
  {
    hide Handle, Next, OneLine, OneLineRows;
    match a
    case Accept(_, kind) =>
      assert Started(kind).answers == [];
    case Receive(c, req, env) =>
      LocationOnOneLine(cfg, s.table, req, env);
      NextExtends(s.conns[c], ReadOk(req, Handle(cfg, s.table, req, env).response.value));
    case Complete(c, e) =>
      NextExtends(s.conns[c], e);
  }
}
