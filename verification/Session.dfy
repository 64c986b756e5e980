// The HTTP pipelining session (include/session.hpp) as an event-driven state
// machine: every handler of the class is one step of `Next`, and the properties are
// about all runs of those steps.
module Session {
  import opened Text
  import opened Shortener
  import Generate

  /** Most responses the queue will hold. */
  const LIMIT := 8

  /** Longest body the parser accepts; a longer one is a read error. */
  const BODY_LIMIT := 10000

  datatype Kind = Plain | Ssl

  /** Shaking until a TLS handshake ends; Dead when it failed. */
  datatype Phase = Created | Shaking | Open | Dead

  datatype ReadEnd = NotEnded | EndOfStream | ReadFailed

  datatype WriteStop = NotStopped | Closed | WriteFailed

  /** The queue, the operations outstanding, and what has happened so far. `flight`
      is the response of the outstanding write, `shutdowns` the number of outstanding
      TLS shutdowns; `answers` are the responses the handler gave, in the order of
      `requests`, and `eofs` counts the calls of `do_eof`. */
  datatype State = State(
    kind: Kind,
    phase: Phase,
    items: seq<Response>,
    reading: bool, flight: Option<Response>,
    readEnd: ReadEnd, stop: WriteStop,
    requests: seq<Request>, answers: seq<Response>, written: seq<Response>,
    eofs: nat, shutdowns: nat)

  function Fresh(kind: Kind): State {
    State(kind, Created, [], false, None, NotEnded, NotStopped, [], [], [], 0, 0)
  }

  datatype Event =
    | HandshakeOk
    | HandshakeError
    | ReadOk(req: Request, answer: Response)
    | ReadEof
    | ReadError
    | WriteOk
    | WriteError
    | ShutdownOk
    | ShutdownError

  // ---- Steps ------------------------------------------------------------------------

  function Started(kind: Kind): State {
    if kind.Plain? then Armed(Fresh(kind).(phase := Open)) else Fresh(kind).(phase := Shaking)
  }

  function Armed(s: State): State {
    s.(reading := true)
  }

  function WriteFront(s: State): State
    requires s.items != []
  {
    s.(flight := Some(s.items[0]))
  }

  function Enqueue(s: State, r: Response): State {
    var s' := s.(items := s.items + [r]);
    if |s'.items| == 1 then WriteFront(s') else s'
  }

  /** Only outstanding operations complete. */
  predicate Enabled(s: State, e: Event) {
    match e
    case HandshakeOk => s.phase.Shaking?
    case HandshakeError => s.phase.Shaking?
    case ReadOk(req, _) => s.reading && |req.body| <= BODY_LIMIT
    case ReadEof => s.reading
    case ReadError => s.reading
    case WriteOk => s.flight.Some? && s.items != []
    case WriteError => s.flight.Some?
    case ShutdownOk => s.shutdowns > 0
    case ShutdownError => s.shutdowns > 0
  }

  /** `do_eof`: a plain session is shut down at once, a TLS session starts a shutdown
      that completes later. */
  function Eof(s: State): State {
    s.(eofs := s.eofs + 1, shutdowns := s.shutdowns + if s.kind.Ssl? then 1 else 0)
  }

  function OnReadOk(s: State, req: Request, answer: Response): State {
    var s1 := s.(reading := false, requests := s.requests + [req], answers := s.answers + [answer]);
    var s2 := Enqueue(s1, answer);
    if |s2.items| < LIMIT then Armed(s2) else s2
  }

  function OnWriteOk(s: State): State
    requires s.flight.Some? && s.items != []
  {
    var r := s.flight.value;
    var s1 := s.(flight := None, written := s.written + [r]);
    if r.needEof then Eof(s1.(stop := Closed))
    else
      var s2 := s1.(items := s.items[1..]);
      var s3 := if s2.items != [] then WriteFront(s2) else s2;
      if |s.items| >= LIMIT then Armed(s3) else s3
  }

  function Next(s: State, e: Event): State
    requires Enabled(s, e)
  {
    match e
    case HandshakeOk => Armed(s.(phase := Open))
    case HandshakeError => s.(phase := Dead)
    case ReadOk(req, answer) => OnReadOk(s, req, answer)
    case ReadEof => Eof(s.(reading := false, readEnd := EndOfStream))
    case ReadError => s.(reading := false, readEnd := ReadFailed)
    case WriteOk => OnWriteOk(s)
    case WriteError => s.(flight := None, stop := WriteFailed)
    case ShutdownOk => s.(shutdowns := s.shutdowns - 1)
    case ShutdownError => s.(shutdowns := s.shutdowns - 1)
  }

  // ---- The invariant ------------------------------------------------------------------

  /** The queued responses not yet on the wire. After a closing write its response
      stays in the queue. */
  function Pending(s: State): seq<Response> {
    if s.stop.Closed? && s.items != [] then s.items[1..] else s.items
  }

  /** At most one write is outstanding, and it is the front of the queue; at most one
      read, exactly while there is room and reading has not ended. */
  ghost predicate Flow(s: State) {
    && |s.items| <= LIMIT
    && s.flight == (if s.items != [] && s.stop.NotStopped? then Some(s.items[0]) else None)
    && (s.reading <==> s.phase.Open? && |s.items| < LIMIT && s.readEnd.NotEnded?)
    && (!s.readEnd.NotEnded? ==> |s.items| < LIMIT)
    && (!s.stop.NotStopped? ==> s.items != [])
    && (!s.phase.Open? ==> s.items == [] && s.readEnd.NotEnded? && s.requests == [])
  }

  /** What was written and what is pending are the handler's answers in order. */
  ghost predicate Conserved(s: State) {
    && |s.requests| == |s.answers|
    && s.written + Pending(s) == s.answers
  }

  /** A response that closes is the last one written, and each cause shuts the
      connection down once. */
  ghost predicate Ended(s: State) {
    && (forall k | 0 <= k < |s.written| :: s.written[k].needEof ==> s.stop.Closed? && k == |s.written| - 1)
    && (s.stop.Closed? ==> s.written != [] && s.items != []
                           && s.written[|s.written| - 1] == s.items[0] && s.items[0].needEof)
    && s.eofs == (if s.readEnd.EndOfStream? then 1 else 0) + (if s.stop.Closed? then 1 else 0)
    && s.shutdowns <= (if s.kind.Ssl? then s.eofs else 0)
  }

  ghost predicate Inv(s: State) {
    Flow(s) && Conserved(s) && Ended(s)
  }

  lemma StepKeepsFlow(s: State, e: Event)
    requires Flow(s) && Enabled(s, e)
    ensures Flow(Next(s, e))
  {
  }

  lemma {:induction false} AnswerIsConserved(s: State, req: Request, answer: Response)
    requires Flow(s) && Conserved(s)
    ensures Conserved(OnReadOk(s, req, answer))
  {
    var s' := OnReadOk(s, req, answer);
    assert Pending(s') == Pending(s) + [answer];
    assert s.written + (Pending(s) + [answer]) == s.written + Pending(s) + [answer];
  }

  lemma {:induction false} WriteIsConserved(s: State)
    requires Flow(s) && Conserved(s) && s.flight.Some?
    ensures Conserved(OnWriteOk(s))
  {
    var s' := OnWriteOk(s);
    assert s.items == [s.items[0]] + s.items[1..];
    assert Pending(s') == s.items[1..];
    assert s.written + s.items == (s.written + [s.items[0]]) + s.items[1..];
  }

  lemma WriteKeepsEnded(s: State)
    requires Flow(s) && Ended(s) && s.flight.Some?
    ensures Ended(OnWriteOk(s))
  {
  }

  lemma {:induction false} StepKeepsEnded(s: State, e: Event)
    requires Flow(s) && Ended(s) && Enabled(s, e)
    ensures Ended(Next(s, e))
  {
    if e.WriteOk? {
      WriteKeepsEnded(s);
    }
  }

  lemma StepKeepsInv(s: State, e: Event)
    requires Inv(s) && Enabled(s, e)
    ensures Inv(Next(s, e))
  {
    StepKeepsFlow(s, e);
    StepKeepsEnded(s, e);
    hide Flow, Ended, OnReadOk, OnWriteOk;
    match e
    case ReadOk(req, answer) => AnswerIsConserved(s, req, answer);
    case WriteOk => WriteIsConserved(s);
    case _ =>
  }

  // ---- Runs ------------------------------------------------------------------------------

  /** es leads from s to s'. */
  ghost predicate Runs(s: State, es: seq<Event>, s': State)
    decreases |es|
  {
    if es == [] then s' == s
    else Enabled(s, es[0]) && Runs(Next(s, es[0]), es[1..], s')
  }

  lemma {:induction false} RunKeepsInv(s: State, es: seq<Event>, s': State)
    requires Inv(s) && Runs(s, es, s')
    ensures Inv(s')
    decreases |es|
  {
    if es != [] {
      StepKeepsInv(s, es[0]);
      RunKeepsInv(Next(s, es[0]), es[1..], s');
    }
  }

  /** Every reachable state of every interleaving: mutual exclusion, back-pressure,
      and responses in request order (section 9.3.2 of RFC 9112). */
  lemma ReachableInv(kind: Kind, es: seq<Event>, s: State)
    requires Runs(Started(kind), es, s)
    ensures Inv(s)
  {
    RunKeepsInv(Started(kind), es, s);
  }

  lemma StoppedStep(s: State, e: Event)
    requires Flow(s) && !s.stop.NotStopped? && Enabled(s, e)
    ensures var s' := Next(s, e);
            && s'.written == s.written && s'.stop == s.stop
            && |s'.requests| - |s.requests| == |s'.items| - |s.items|
  {
  }

  /** After a closing or failed write nothing more is written, and only as many
      requests are handled as the queue has room for: at most seven. */
  lemma {:induction false} StoppedForever(s: State, es: seq<Event>, s': State)
    requires Inv(s) && !s.stop.NotStopped? && Runs(s, es, s')
    ensures s'.written == s.written && s'.stop == s.stop && s'.flight == None
    ensures |s'.requests| - |s.requests| == |s'.items| - |s.items| <= LIMIT - 1
    decreases |es|
  {
    RunKeepsInv(s, es, s');
    if es != [] {
      StoppedStep(s, es[0]);
      StepKeepsInv(s, es[0]);
      hide Next, Enabled, Conserved, Ended;
      StoppedForever(Next(s, es[0]), es[1..], s');
    }
  }

  /** Requests behind one that closes: at most seven are handled, and their answers are
      never written (section 9.6 of RFC 9112). */
  lemma BehindClosing(kind: Kind, es: seq<Event>, s: State, k: nat)
    requires Runs(Started(kind), es, s) && k < |s.answers| && s.answers[k].needEof
    ensures |s.requests| == |s.answers| <= k + LIMIT
    ensures |s.written| <= k + 1
  {
    ReachableInv(kind, es, s);
    AnswersBehind(s, k);
  }

  lemma AnswersBehind(s: State, k: nat)
    requires Inv(s) && k < |s.answers| && s.answers[k].needEof
    ensures |s.requests| == |s.answers| <= k + LIMIT
    ensures |s.written| <= k + 1
  {
    if k < |s.written| {
      assert s.written[k] == s.answers[k];
    }
  }

  lemma ReadEndedStep(s: State, e: Event)
    requires Flow(s) && !s.readEnd.NotEnded? && Enabled(s, e)
    ensures var s' := Next(s, e);
            s'.requests == s.requests && s'.readEnd == s.readEnd
  {
  }

  /** After the end of the stream or a read error no read is ever outstanding and no
      further request is handled. */
  lemma {:induction false} ReadEndedForever(s: State, es: seq<Event>, s': State)
    requires Inv(s) && !s.readEnd.NotEnded? && Runs(s, es, s')
    ensures s'.requests == s.requests && s'.readEnd == s.readEnd && !s'.reading
    decreases |es|
  {
    if es != [] {
      ReadEndedStep(s, es[0]);
      StepKeepsInv(s, es[0]);
      hide Next, Enabled, Inv;
      ReadEndedForever(Next(s, es[0]), es[1..], s');
    }
  }

  /** What is written is a prefix of the answers, a closing response ends it, and the
      connection is shut down at most twice. */
  lemma ReachableOutput(kind: Kind, es: seq<Event>, s: State)
    requires Runs(Started(kind), es, s)
    ensures s.written <= s.answers && |s.answers| == |s.requests|
    ensures |s.answers| - |s.written| <= LIMIT
    ensures forall k | 0 <= k < |s.written| - 1 :: !s.written[k].needEof
    ensures s.eofs <= 2
  {
    ReachableInv(kind, es, s);
  }

  /** The assertion in `queue::on_write`: a write that completes is that of the item
      in front. */
  lemma FrontIsInFlight(kind: Kind, es: seq<Event>, s: State)
    requires Runs(Started(kind), es, s) && s.flight.Some?
    ensures Enabled(s, WriteOk) && s.items != [] && s.flight.value == s.items[0]
  {
    ReachableInv(kind, es, s);
  }

  /** Shutdowns that have completed. */
  function ShutdownsDone(es: seq<Event>): nat {
    if es == [] then 0
    else (if es[0].ShutdownOk? || es[0].ShutdownError? then 1 else 0) + ShutdownsDone(es[1..])
  }

  lemma {:induction false} ShutdownsCounted(s: State, es: seq<Event>, s': State)
    requires Runs(s, es, s')
    requires s.shutdowns <= if s.kind.Ssl? then s.eofs else 0
    ensures s'.kind == s.kind && s'.eofs >= s.eofs
    ensures s'.shutdowns + ShutdownsDone(es)
         == s.shutdowns + if s.kind.Ssl? then s'.eofs - s.eofs else 0
    decreases |es|
  {
    if es != [] {
      ShutdownsCounted(Next(s, es[0]), es[1..], s');
    }
  }

  /** When a session has no outstanding operation left, and so ends: its handshake
      failed, or it neither reads nor writes any more and, over TLS, every shutdown it
      started has completed. */
  lemma QuiescentIff(kind: Kind, es: seq<Event>, s: State)
    requires Runs(Started(kind), es, s)
    ensures !s.reading && s.flight == None && !s.phase.Shaking? && s.shutdowns == 0 <==>
              && (|| s.phase.Dead?
                  || (|s.items| == LIMIT && !s.stop.NotStopped?)
                  || (!s.readEnd.NotEnded? && (s.items == [] || !s.stop.NotStopped?)))
              && (kind.Ssl? ==> ShutdownsDone(es) == s.eofs)
  {
    ReachableInv(kind, es, s);
    PhaseReached(Started(kind), es, s);
    ShutdownsCounted(Started(kind), es, s);
  }

  /** When a TLS shutdown overlaps a read (after a closing write), a write (after the
      end of the stream) or another shutdown (after both): exactly as long as none has
      completed. A plain session never has one outstanding. */
  lemma ShutdownOverlaps(kind: Kind, es: seq<Event>, s: State)
    requires Runs(Started(kind), es, s)
    ensures s.shutdowns > 0 <==> kind.Ssl? && s.eofs > ShutdownsDone(es)
    ensures s.shutdowns > 0 && s.reading <==>
            kind.Ssl? && s.reading && s.stop.Closed? && ShutdownsDone(es) == 0
    ensures s.shutdowns > 0 && s.flight.Some? <==>
            kind.Ssl? && s.flight.Some? && s.readEnd.EndOfStream? && ShutdownsDone(es) == 0
    ensures s.shutdowns > 1 <==>
            kind.Ssl? && s.stop.Closed? && s.readEnd.EndOfStream? && ShutdownsDone(es) == 0
    ensures s.shutdowns > 1 ==> s.shutdowns == 2 && !s.reading && s.flight == None
  {
    ReachableInv(kind, es, s);
    ShutdownsCounted(Started(kind), es, s);
  }

  /** A run may go on with any step its last state enables. */
  lemma {:induction false} RunsSnoc(s: State, es: seq<Event>, s': State, e: Event)
    requires Runs(s, es, s') && Enabled(s', e)
    ensures Runs(s, es + [e], Next(s', e))
    decreases |es|
  {
    hide Next, Enabled;
    if es == [] {
      assert es + [e] == [e] && [e][1..] == [];
      assert Runs(Next(s, e), [], Next(s, e));
    } else {
      assert (es + [e])[1..] == es[1..] + [e];
      RunsSnoc(Next(s, es[0]), es[1..], s', e);
    }
  }

  /** Each of those overlaps happens: a shutdown with a read, with a write, and with
      another shutdown. */
  lemma ShutdownOverlapsHappen(req: Request, open: Response, closing: Response)
    returns (withRead: State, withWrite: State, withShutdown: State)
    requires |req.body| <= BODY_LIMIT && !open.needEof && closing.needEof
    ensures Runs(Started(Ssl), [HandshakeOk, ReadOk(req, closing), WriteOk], withRead)
    ensures withRead.shutdowns == 1 && withRead.reading
    ensures Runs(Started(Ssl), [HandshakeOk, ReadOk(req, open), ReadEof], withWrite)
    ensures withWrite.shutdowns == 1 && withWrite.flight == Some(open)
    ensures Runs(Started(Ssl), [HandshakeOk, ReadOk(req, closing), WriteOk, ReadEof], withShutdown)
    ensures withShutdown.shutdowns == 2
  {
    var s0 := Started(Ssl);
    var s1 := Next(s0, HandshakeOk);
    assert Runs(s0, [], s0);
    RunsSnoc(s0, [], s0, HandshakeOk);
    assert [] + [HandshakeOk] == [HandshakeOk];
    var c, o := ReadOk(req, closing), ReadOk(req, open);
    RunsSnoc(s0, [HandshakeOk], s1, c);
    RunsSnoc(s0, [HandshakeOk] + [c], Next(s1, c), WriteOk);
    withRead := Next(Next(s1, c), WriteOk);
    RunsSnoc(s0, [HandshakeOk] + [c] + [WriteOk], withRead, ReadEof);
    withShutdown := Next(withRead, ReadEof);
    RunsSnoc(s0, [HandshakeOk], s1, o);
    RunsSnoc(s0, [HandshakeOk] + [o], Next(s1, o), ReadEof);
    withWrite := Next(Next(s1, o), ReadEof);
    assert [HandshakeOk] + [c] + [WriteOk] == [HandshakeOk, c, WriteOk];
    assert [HandshakeOk] + [c] + [WriteOk] + [ReadEof] == [HandshakeOk, c, WriteOk, ReadEof];
    assert [HandshakeOk] + [o] + [ReadEof] == [HandshakeOk, o, ReadEof];
  }

  lemma {:induction false} PhaseReached(s: State, es: seq<Event>, s': State)
    requires Runs(s, es, s') && !s.phase.Created?
    ensures !s'.phase.Created?
    decreases |es|
  {
    if es != [] {
      PhaseReached(Next(s, es[0]), es[1..], s');
    }
  }

  // ---- Progress ------------------------------------------------------------------------------

  /** Completions that succeed, with answers that keep the connection open. */
  predicate Smooth(e: Event) {
    (e.ReadOk? && !e.answer.needEof) || e.WriteOk?
  }

  predicate AllSmooth(es: seq<Event>) {
    forall i | 0 <= i < |es| :: Smooth(es[i])
  }

  function Reads(es: seq<Event>): nat {
    if es == [] then 0 else (if es[0].ReadOk? then 1 else 0) + Reads(es[1..])
  }

  /** Open in both directions with nothing queued that closes. */
  ghost predicate Flowing(s: State) {
    && Inv(s) && s.phase.Open? && s.readEnd.NotEnded? && s.stop.NotStopped?
    && forall i | 0 <= i < |s.items| :: !s.items[i].needEof
  }

  /** Twice the unread requests plus the queued responses: one less at every
      completion, and while it is positive a completion is outstanding. */
  function Measure(unread: nat, s: State): nat {
    2 * unread + |s.items|
  }

  lemma {:induction false} SmoothStep(s: State, e: Event)
    requires Flowing(s) && Enabled(s, e) && Smooth(e)
    ensures Flowing(Next(s, e))
    ensures |Next(s, e).items| == |s.items| + if e.ReadOk? then 1 else -1
    ensures |Next(s, e).requests| == |s.requests| + if e.ReadOk? then 1 else 0
  {
    StepKeepsInv(s, e);
  }

  lemma {:induction false} SmoothRun(s: State, unread: nat, es: seq<Event>, s': State)
    requires Flowing(s) && Runs(s, es, s') && AllSmooth(es) && Reads(es) <= unread
    ensures Flowing(s')
    ensures |es| + Measure(unread - Reads(es), s') == Measure(unread, s)
    ensures |s'.requests| == |s.requests| + Reads(es)
    decreases |es|
  {
    if es != [] {
      SmoothStep(s, es[0]);
      SmoothRun(Next(s, es[0]), unread - (if es[0].ReadOk? then 1 else 0), es[1..], s');
    }
  }

  /** While the measure is positive a completion is outstanding; at zero all is done. */
  lemma FlowingMeasure(s: State, unread: nat)
    requires Flowing(s)
    ensures Measure(unread, s) > 0 ==> s.flight.Some? || (s.reading && unread > 0)
    ensures Measure(unread, s) == 0 ==> unread == 0 && s.written == s.answers && s.items == [] && s.reading
    ensures |s.requests| == |s.answers|
  {
  }

  /** With n more requests on their way to a session that is open in both directions:
      every schedule of completions has at most 2n + |items| of them, is never stuck
      before that, and then everything has been written, the queue is empty and one
      read waits. */
  lemma EveryRequestIsAnswered(s: State, n: nat, es: seq<Event>, s': State)
    requires Flowing(s) && Runs(s, es, s') && AllSmooth(es) && Reads(es) <= n
    ensures |es| <= Measure(n, s)
    ensures |es| < Measure(n, s) ==> s'.flight.Some? || (s'.reading && Reads(es) < n)
    ensures |es| == Measure(n, s) ==>
              && |s'.requests| == |s.requests| + n
              && s'.written == s'.answers && s'.items == [] && s'.reading
  {
    hide Flowing, Runs, AllSmooth, Reads;
    SmoothRun(s, n, es, s');
    FlowingMeasure(s', n - Reads(es));
  }

  function Writes(es: seq<Event>): nat {
    if es == [] then 0 else (if es[0].WriteOk? then 1 else 0) + Writes(es[1..])
  }

  predicate WritesSucceed(es: seq<Event>) {
    forall i | 0 <= i < |es| :: !es[i].WriteError?
  }

  /** The k-th answer waits its turn: writing goes on, and nothing ahead of it closes
      the connection. Whether reading still goes on does not matter. */
  ghost predicate Due(s: State, k: nat) {
    && Inv(s) && s.stop.NotStopped?
    && |s.written| <= k < |s.answers|
    && forall x | |s.written| <= x < k :: !s.answers[x].needEof
  }

  lemma DueIsMoving(s: State, k: nat)
    requires Due(s, k)
    ensures s.flight.Some? && k - |s.written| < LIMIT
  {
    assert s.written + s.items == s.answers;
  }

  lemma WriteStep(s: State)
    requires Inv(s) && Enabled(s, WriteOk)
    ensures var s' := Next(s, WriteOk);
            && |s.written| < |s.answers| == |s'.answers| && s.stop.NotStopped?
            && s'.answers == s.answers && |s'.written| == |s.written| + 1
            && (if s.answers[|s.written|].needEof
                then s'.stop.Closed? && s'.eofs == s.eofs + 1
                else s'.stop.NotStopped? && s'.eofs == s.eofs && (|s.answers| > |s.written| + 1 ==> s'.flight.Some?))
  {
    assert s.written + s.items == s.answers;
    assert s.items[0] == s.answers[|s.written|];
  }

  lemma OtherStep(s: State, e: Event)
    requires Enabled(s, e) && !e.WriteOk? && !e.WriteError?
    ensures var s' := Next(s, e);
            s'.written == s.written && s'.stop == s.stop && s.answers <= s'.answers
  {
  }

  lemma DueStep(s: State, k: nat, e: Event)
    requires Due(s, k) && Enabled(s, e) && !e.WriteError?
    ensures var s' := Next(s, e);
            && |s'.written| == |s.written| + (if e.WriteOk? then 1 else 0)
            && (if e.WriteOk? && |s.written| == k then k < |s'.written| else Due(s', k))
  {
    StepKeepsInv(s, e);
    if e.WriteOk? {
      WriteStep(s);
    } else {
      OtherStep(s, e);
    }
    hide Inv, Next, Enabled;
  }

  lemma {:induction false} WrittenGrows(s: State, es: seq<Event>, s': State)
    requires Runs(s, es, s')
    ensures |s.written| <= |s'.written|
    decreases |es|
  {
    if es != [] {
      WrittenGrows(Next(s, es[0]), es[1..], s');
    }
  }

  /** An answer that is due is written after exactly as many further writes as there
      are answers ahead of it, at most seven, and its own; until then a write is
      outstanding. */
  lemma {:induction false} DueIsWritten(s: State, k: nat, es: seq<Event>, s': State)
    requires Due(s, k) && Runs(s, es, s') && WritesSucceed(es)
    ensures k < |s'.written| <==> Writes(es) > k - |s.written|
    ensures k >= |s'.written| ==> s'.flight.Some?
    decreases |es|
  {
    DueIsMoving(s, k);
    if es != [] {
      var e, next := es[0], Next(s, es[0]);
      DueStep(s, k, e);
      hide Due, Inv, Next, Enabled;
      if e.WriteOk? && |s.written| == k {
        WrittenGrows(next, es[1..], s');
      } else {
        DueIsWritten(next, k, es[1..], s');
      }
    }
  }

  /** A new connection of either kind, its handshake over, is such a session. */
  lemma NewConnectionFlows()
    ensures Flowing(Started(Plain))
    ensures Next(Started(Ssl), HandshakeOk) == Started(Plain).(kind := Ssl)
    ensures Flowing(Next(Started(Ssl), HandshakeOk))
  {
  }

  // ---- Runs in terms of their events alone -----------------------------------------------

  function RequestsOf(es: seq<Event>): seq<Request> {
    if es == [] then []
    else RequestsOf(es[..|es| - 1]) + if es[|es| - 1].ReadOk? then [es[|es| - 1].req] else []
  }

  function AnswersOf(es: seq<Event>): seq<Response> {
    if es == [] then []
    else AnswersOf(es[..|es| - 1]) + if es[|es| - 1].ReadOk? then [es[|es| - 1].answer] else []
  }

  /** What has happened: which events that happen at most once, and the requests read,
      their answers, the writes and the shutdowns completed. */
  datatype History = History(
    shook: bool, dead: bool, eof: bool, readError: bool, writeError: bool,
    requests: seq<Request>, answers: seq<Response>, writes: nat, shutdownsDone: nat)
  {
    /** The last answer written closes the connection. */
    predicate Closed() {
      0 < writes <= |answers| && answers[writes - 1].needEof
    }

    function Eofs(): nat {
      (if eof then 1 else 0) + if Closed() then 1 else 0
    }

    /** The answers in the queue: one that closed the connection is never taken out. */
    function Queue(): seq<Response> {
      var first := if Closed() then writes - 1 else writes;
      if first <= |answers| then answers[first..] else []
    }

    predicate Opened(kind: Kind) {
      !dead && (kind.Plain? || shook)
    }

    predicate Reads(kind: Kind) {
      Opened(kind) && |Queue()| < 8 && !eof && !readError
    }

    predicate Writes() {
      writes < |answers| && !writeError && !Closed()
    }

    /** What may happen next. */
    predicate Allows(kind: Kind, e: Event) {
      match e
      case HandshakeOk => kind.Ssl? && !shook && !dead
      case HandshakeError => kind.Ssl? && !shook && !dead
      case ReadOk(req, _) => Reads(kind) && |req.body| <= 10000
      case ReadEof => Reads(kind)
      case ReadError => Reads(kind)
      case WriteOk => Writes()
      case WriteError => Writes()
      case ShutdownOk => kind.Ssl? && shutdownsDone < Eofs()
      case ShutdownError => kind.Ssl? && shutdownsDone < Eofs()
    }

    /** The one state with this history. */
    function Leads(kind: Kind): State
      requires writes <= |answers| && shutdownsDone <= if kind.Ssl? then Eofs() else 0
    {
      State(
        kind,
        if dead then Dead else if Opened(kind) then Open else Shaking,
        Queue(),
        Reads(kind),
        if Writes() then Some(answers[writes]) else None,
        if eof then EndOfStream else if readError then ReadFailed else NotEnded,
        if writeError then WriteFailed else if Closed() then WriteStop.Closed else NotStopped,
        requests, answers, answers[..writes],
        Eofs(), if kind.Ssl? then Eofs() - shutdownsDone else 0)
    }

    ghost predicate Describes(kind: Kind, s: State) {
      && writes <= |answers| && shutdownsDone <= (if kind.Ssl? then Eofs() else 0)
      && s == Leads(kind)
    }

    function Then(e: Event): History {
      match e
      case HandshakeOk => this.(shook := true)
      case HandshakeError => this.(dead := true)
      case ReadOk(req, answer) => this.(requests := requests + [req], answers := answers + [answer])
      case ReadEof => this.(eof := true)
      case ReadError => this.(readError := true)
      case WriteOk => this.(writes := writes + 1)
      case WriteError => this.(writeError := true)
      case ShutdownOk => this.(shutdownsDone := shutdownsDone + 1)
      case ShutdownError => this.(shutdownsDone := shutdownsDone + 1)
    }
  }

  function HistoryOf(es: seq<Event>): History {
    History(
      HandshakeOk in es, HandshakeError in es, ReadEof in es, ReadError in es, WriteError in es,
      RequestsOf(es), AnswersOf(es), Writes(es), ShutdownsDone(es))
  }

  lemma {:induction false} WritesSnoc(es: seq<Event>, e: Event)
    ensures Writes(es + [e]) == Writes(es) + if e.WriteOk? then 1 else 0
    ensures ShutdownsDone(es + [e]) == ShutdownsDone(es) + if e.ShutdownOk? || e.ShutdownError? then 1 else 0
  {
    if es == [] {
      assert es + [e] == [e] && [e][1..] == [];
    } else {
      assert (es + [e])[1..] == es[1..] + [e];
      WritesSnoc(es[1..], e);
    }
  }

  lemma HistorySnoc(es: seq<Event>, e: Event)
    ensures HistoryOf(es + [e]) == HistoryOf(es).Then(e)
  {
    assert (es + [e])[..|es|] == es;
    WritesSnoc(es, e);
    hide Writes, ShutdownsDone;
  }

  lemma EnabledIff(kind: Kind, h: History, s: State, e: Event)
    requires h.Describes(kind, s)
    ensures Enabled(s, e) <==> h.Allows(kind, e)
  {
  }

  lemma QueueFront(h: History)
    requires h.writes <= |h.answers|
    ensures h.Closed() || h.writes < |h.answers| ==> h.Queue() != []
    ensures !h.Closed() && h.writes < |h.answers| ==> h.Queue()[0] == h.answers[h.writes]
    ensures !h.Closed() && h.writes == |h.answers| ==> h.Queue() == []
  {
  }

  lemma ReadHistory(h: History, req: Request, answer: Response)
    requires h.writes <= |h.answers|
    ensures var h' := h.Then(ReadOk(req, answer));
            && h'.Closed() == h.Closed() && h'.Queue() == h.Queue() + [answer]
            && h'.answers[..h.writes] == h.answers[..h.writes]
            && h'.answers[h.writes] == if h.writes < |h.answers| then h.answers[h.writes] else answer
  {
  }

  lemma WriteHistory(h: History)
    requires h.writes < |h.answers| && !h.Closed()
    ensures var h' := h.Then(WriteOk);
            && h'.Closed() == h.answers[h.writes].needEof
            && h'.Queue() == (if h'.Closed() then h.Queue() else h.Queue()[1..])
            && h'.answers[..h'.writes] == h.answers[..h.writes] + [h.answers[h.writes]]
  {
  }

  lemma OtherHistory(h: History, e: Event)
    requires !e.ReadOk? && !e.WriteOk?
    ensures h.Then(e).Closed() == h.Closed() && h.Then(e).Queue() == h.Queue()
  {
  }

  lemma ReadFields(s: State, req: Request, answer: Response)
    requires Enabled(s, ReadOk(req, answer)) && Flow(s)
    ensures Next(s, ReadOk(req, answer)) == s.(
      reading := |s.items| + 1 < 8, items := s.items + [answer],
      flight := if s.items == [] then Some(answer) else s.flight,
      requests := s.requests + [req], answers := s.answers + [answer])
    ensures s.phase.Open? && s.readEnd.NotEnded? && (!s.stop.NotStopped? ==> s.items != [])
  {
  }

  lemma DescribesRead(kind: Kind, h: History, s: State, req: Request, answer: Response)
    requires h.Describes(kind, s) && Enabled(s, ReadOk(req, answer)) && Flow(s)
    ensures h.Then(ReadOk(req, answer)).Describes(kind, Next(s, ReadOk(req, answer)))
  {
    var e := ReadOk(req, answer);
    ReadFields(s, req, answer);
    ReadHistory(h, req, answer);
    QueueFront(h);
    assert s.items == h.Queue() && s.phase == (if h.dead then Dead else if h.Opened(kind) then Open else Shaking);
    hide History.Closed, History.Queue, Next, Enabled, Flow;
    var s', l := Next(s, e), h.Then(e).Leads(kind);
    assert s'.reading == l.reading;
    assert s'.flight == l.flight;
    assert s'.written == l.written;
    assert s'.stop == l.stop && s'.readEnd == l.readEnd && s'.eofs == l.eofs;
  }

  lemma WriteFields(s: State)
    requires Enabled(s, WriteOk) && Flow(s)
    ensures s.phase.Open? && s.stop.NotStopped?
    ensures var r := s.flight.value;
            Next(s, WriteOk) ==
            if r.needEof then
              s.(flight := None, written := s.written + [r], stop := Closed, eofs := s.eofs + 1,
                 shutdowns := s.shutdowns + if s.kind.Ssl? then 1 else 0)
            else
              s.(flight := if |s.items| > 1 then Some(s.items[1]) else None, written := s.written + [r],
                 items := s.items[1..], reading := s.readEnd.NotEnded?)
  {
  }

  lemma DescribesLastWrite(kind: Kind, h: History, s: State)
    requires h.Describes(kind, s) && Enabled(s, WriteOk) && Flow(s) && h.answers[h.writes].needEof
    ensures h.Then(WriteOk).Describes(kind, Next(s, WriteOk))
  {
    WriteFields(s);
    WriteHistory(h);
    hide History.Closed, History.Queue, Flow, Next;
  }

  lemma DescribesNextWrite(kind: Kind, h: History, s: State)
    requires h.Describes(kind, s) && Enabled(s, WriteOk) && Flow(s) && !h.answers[h.writes].needEof
    ensures h.Then(WriteOk).Describes(kind, Next(s, WriteOk))
  {
    WriteFields(s);
    WriteHistory(h);
    QueueFront(h.Then(WriteOk));
    assert s.flight == Some(h.answers[h.writes]) && |s.items| <= 8;
    assert s.items == h.Queue() && (s.readEnd.NotEnded? <==> !h.eof && !h.readError) && !h.Closed();
    hide History.Closed, History.Queue, Next, Flow, Enabled;
    var s', l := Next(s, WriteOk), h.Then(WriteOk).Leads(kind);
    assert s'.reading == l.reading;
    assert s'.flight == l.flight;
    assert s'.written == l.written;
  }

  lemma DescribesHandshake(kind: Kind, h: History, s: State, e: Event)
    requires h.Describes(kind, s) && Enabled(s, e) && Flow(s) && (e.HandshakeOk? || e.HandshakeError?)
    ensures h.Then(e).Describes(kind, Next(s, e))
  {
    OtherHistory(h, e);
    QueueFront(h);
    assert s.items == [] && s.readEnd.NotEnded?;
    hide History.Closed, History.Queue, Flow;
  }

  lemma DescribesShutdown(kind: Kind, h: History, s: State, e: Event)
    requires h.Describes(kind, s) && Enabled(s, e) && (e.ShutdownOk? || e.ShutdownError?)
    ensures h.Then(e).Describes(kind, Next(s, e))
  {
    OtherHistory(h, e);
    hide History.Closed, History.Queue;
  }

  lemma DescribesReadEnd(kind: Kind, h: History, s: State, e: Event)
    requires h.Describes(kind, s) && Enabled(s, e) && (e.ReadEof? || e.ReadError?)
    ensures h.Then(e).Describes(kind, Next(s, e))
  {
    OtherHistory(h, e);
    hide History.Closed, History.Queue;
  }

  lemma DescribesWriteError(kind: Kind, h: History, s: State)
    requires h.Describes(kind, s) && Enabled(s, WriteError)
    ensures h.Then(WriteError).Describes(kind, Next(s, WriteError))
  {
    OtherHistory(h, WriteError);
    hide History.Closed, History.Queue;
  }

  lemma DescribesStep(kind: Kind, h: History, s: State, e: Event)
    requires h.Describes(kind, s) && Inv(s) && Enabled(s, e)
    ensures h.Then(e).Describes(kind, Next(s, e))
  {
    match e
    case ReadOk(req, answer) => DescribesRead(kind, h, s, req, answer);
    case WriteOk =>
      if h.answers[h.writes].needEof {
        DescribesLastWrite(kind, h, s);
      } else {
        DescribesNextWrite(kind, h, s);
      }
    case HandshakeOk => DescribesHandshake(kind, h, s, e);
    case HandshakeError => DescribesHandshake(kind, h, s, e);
    case ShutdownOk => DescribesShutdown(kind, h, s, e);
    case ShutdownError => DescribesShutdown(kind, h, s, e);
    case WriteError => DescribesWriteError(kind, h, s);
    case _ => DescribesReadEnd(kind, h, s, e);
  }

  /** A run and its last step. */
  lemma {:induction false} RunsUnsnoc(s: State, es: seq<Event>, s': State) returns (mid: State)
    requires es != [] && Runs(s, es, s')
    ensures Runs(s, es[..|es| - 1], mid) && Enabled(mid, es[|es| - 1]) && s' == Next(mid, es[|es| - 1])
    decreases |es|
  {
    hide Next, Enabled;
    if |es| == 1 {
      mid := s;
    } else {
      mid := RunsUnsnoc(Next(s, es[0]), es[1..], s');
      assert es[1..][..|es[1..]| - 1] == es[..|es| - 1][1..];
    }
  }

  lemma NothingHappened(kind: Kind, s: State)
    requires Runs(Started(kind), [], s)
    ensures HistoryOf([]).Describes(kind, s)
  {
  }

  /** The state a run leads to, in terms of what has happened. */
  lemma {:induction false} HistoryDescribes(kind: Kind, es: seq<Event>, s: State)
    requires Runs(Started(kind), es, s)
    ensures HistoryOf(es).Describes(kind, s)
    decreases |es|
  {
    hide *;
    if es == [] {
      NothingHappened(kind, s);
    } else {
      var mid := RunsUnsnoc(Started(kind), es, s);
      var front, e := es[..|es| - 1], es[|es| - 1];
      HistoryDescribes(kind, front, mid);
      ReachableInv(kind, front, mid);
      HistorySnoc(front, e);
      assert front + [e] == es;
      DescribesStep(kind, HistoryOf(front), mid, e);
    }
  }

  /** A run may go on with e exactly when its history allows it. */
  lemma RunGoesOnIff(kind: Kind, es: seq<Event>, s: State, e: Event)
    requires Runs(Started(kind), es, s)
    ensures Enabled(s, e) <==> HistoryOf(es).Allows(kind, e)
  {
    hide Enabled, HistoryOf, History.Allows, History.Describes;
    HistoryDescribes(kind, es, s);
    EnabledIff(kind, HistoryOf(es), s, e);
  }

  /** The runs of a session, exactly: the sequences of events each of which is allowed by
      those before it. */
  lemma {:induction false} RunsExact(kind: Kind, es: seq<Event>)
    ensures (exists s :: Runs(Started(kind), es, s))
            <==> forall i | 0 <= i < |es| :: HistoryOf(es[..i]).Allows(kind, es[i])
    decreases |es|
  {
    hide Next, Enabled, HistoryOf, History.Allows, Started;
    if es == [] {
      assert Runs(Started(kind), es, Started(kind));
    } else {
      var n := |es| - 1;
      var front, e := es[..n], es[n];
      RunsExact(kind, front);
      assert forall i | 0 <= i < n :: front[..i] == es[..i] && front[i] == es[i];
      hide Runs;
      if s :| Runs(Started(kind), es, s) {
        var mid := RunsUnsnoc(Started(kind), es, s);
        RunGoesOnIff(kind, front, mid, e);
      }
      if forall i | 0 <= i < |es| :: HistoryOf(es[..i]).Allows(kind, es[i]) {
        var mid :| Runs(Started(kind), front, mid);
        assert HistoryOf(es[..n]).Allows(kind, es[n]);
        RunGoesOnIff(kind, front, mid, e);
        RunsSnoc(Started(kind), front, mid, e);
        assert front + [e] == es;
      }
    }
  }

  /** The state after a run, on its events: what is recorded, what is outstanding and how
      often the connection was shut down. */
  lemma StateOfRun(kind: Kind, es: seq<Event>, s: State)
    requires Runs(Started(kind), es, s)
    ensures s.requests == RequestsOf(es) && s.answers == AnswersOf(es)
    ensures Writes(es) <= |s.answers| && s.written == s.answers[..Writes(es)]
    ensures var closed := 0 < Writes(es) && s.answers[Writes(es) - 1].needEof;
            && s.items == s.answers[if closed then Writes(es) - 1 else Writes(es)..]
            && s.flight == (if Writes(es) < |s.answers| && WriteError !in es && !closed
                            then Some(s.answers[Writes(es)]) else None)
            && s.eofs == (if ReadEof in es then 1 else 0) + (if closed then 1 else 0)
    ensures s.reading <==>
              && HandshakeError !in es && (kind.Plain? || HandshakeOk in es)
              && ReadEof !in es && ReadError !in es && |s.items| < 8
    ensures s.shutdowns == if kind.Ssl? then s.eofs - ShutdownsDone(es) else 0
  {
    hide Writes, ShutdownsDone, RequestsOf, AnswersOf, Runs, Started;
    HistoryDescribes(kind, es, s);
  }

  lemma AllowedAt(kind: Kind, es: seq<Event>, s: State, n: nat, m: nat)
    requires Runs(Started(kind), es, s) && n < m < |es|
    ensures es[n] in es[..m] && HistoryOf(es[..m]).Allows(kind, es[m])
  {
    hide *;
    RunsExact(kind, es);
    assert es[..m][n] == es[n];
  }

  lemma ForbiddenAfter(kind: Kind, es: seq<Event>, e: Event)
    requires HistoryOf(es).Allows(kind, e)
    ensures WriteError in es ==> !e.WriteOk? && !e.WriteError?
    ensures ReadEof in es || ReadError in es ==> !e.ReadOk? && !e.ReadEof? && !e.ReadError?
  {
    hide RequestsOf, AnswersOf, Writes, ShutdownsDone, History.Queue, History.Closed;
  }

  /** After a failed write no write is outstanding, and none is ever made again or
      fails again. */
  lemma NothingAfterWriteError(kind: Kind, es: seq<Event>, s: State, n: nat)
    requires Runs(Started(kind), es, s) && n < |es| && es[n] == WriteError
    ensures s.flight == None
    ensures forall m | n < m < |es| :: !es[m].WriteOk? && !es[m].WriteError?
  {
    hide *;
    StateOfRun(kind, es, s);
    assert WriteError in es;
    forall m | n < m < |es| ensures !es[m].WriteOk? && !es[m].WriteError? {
      AllowedAt(kind, es, s, n, m);
      ForbiddenAfter(kind, es[..m], es[m]);
    }
  }

  /** After the end of the stream or a read error no read is outstanding, and none ever
      completes again. */
  lemma NothingAfterReadEnd(kind: Kind, es: seq<Event>, s: State, n: nat)
    requires Runs(Started(kind), es, s) && n < |es| && (es[n] == ReadEof || es[n] == ReadError)
    ensures !s.reading
    ensures forall m | n < m < |es| :: !es[m].ReadOk? && !es[m].ReadEof? && !es[m].ReadError?
  {
    hide *;
    StateOfRun(kind, es, s);
    assert ReadEof in es || ReadError in es;
    forall m | n < m < |es| ensures !es[m].ReadOk? && !es[m].ReadEof? && !es[m].ReadError? {
      AllowedAt(kind, es, s, n, m);
      ForbiddenAfter(kind, es[..m], es[m]);
    }
  }

  lemma AllowedHere(kind: Kind, es: seq<Event>, s: State, n: nat)
    requires Runs(Started(kind), es, s) && n < |es|
    ensures HistoryOf(es[..n]).Allows(kind, es[n])
  {
    hide *;
    RunsExact(kind, es);
  }

  lemma AllowedFirst(e: Event)
    requires HistoryOf([]).Allows(Ssl, e)
    ensures e == HandshakeOk || e == HandshakeError
  {
  }

  lemma AllowedHandshakeError(kind: Kind, es: seq<Event>)
    requires HistoryOf(es).Allows(kind, HandshakeError)
    ensures kind.Ssl? && HandshakeOk !in es && HandshakeError !in es
  {
  }

  lemma HandshakeIsFirst(kind: Kind, es: seq<Event>, s: State, n: nat)
    requires Runs(Started(kind), es, s) && n < |es| && es[n] == HandshakeError
    ensures kind.Ssl? && n == 0
  {
    hide *;
    AllowedHere(kind, es, s, n);
    AllowedHandshakeError(kind, es[..n]);
    if n > 0 {
      var first := es[..n][0];
      assert first in es[..n] && first == es[0] && es[..0] == [];
      AllowedHere(kind, es, s, 0);
      AllowedFirst(es[0]);
    }
  }

  lemma NothingAllowedDead(kind: Kind, e: Event)
    ensures !HistoryOf([HandshakeError]).Allows(kind, e)
  {
    assert [HandshakeError][1..] == [] && [HandshakeError][..0] == [];
  }

  /** A handshake that fails is all that ever happens. */
  lemma NothingButHandshakeError(kind: Kind, es: seq<Event>, s: State)
    requires Runs(Started(kind), es, s) && HandshakeError in es
    ensures kind.Ssl? && es == [HandshakeError]
    ensures !s.reading && s.flight == None && s.shutdowns == 0 && s.requests == []
  {
    hide *;
    StateOfRun(kind, es, s);
    var n :| 0 <= n < |es| && es[n] == HandshakeError;
    HandshakeIsFirst(kind, es, s, n);
    if |es| > 1 {
      assert es[..1] == [HandshakeError];
      NothingAllowedDead(kind, es[1]);
      AllowedHere(kind, es, s, 1);
    }
    OneHandshake();
  }

  lemma OneHandshake()
    ensures Writes([HandshakeError]) == 0 && ShutdownsDone([HandshakeError]) == 0
    ensures RequestsOf([HandshakeError]) == [] && AnswersOf([HandshakeError]) == []
  {
    assert [HandshakeError][1..] == [] && [HandshakeError][..0] == [];
  }

  // ---- The session as the server runs it -------------------------------------------------------

  datatype ReadResult = Message(req: Request) | StreamEnd | Failure

  class HttpSession {
    const server: Server
    const kind: Kind
    var items: seq<Response>
    ghost var phase: Phase
    ghost var reading: bool
    ghost var flight: Option<Response>
    ghost var readEnd: ReadEnd
    ghost var stop: WriteStop
    ghost var requests: seq<Request>
    ghost var answers: seq<Response>
    ghost var written: seq<Response>
    ghost var eofs: nat
    ghost var shutdowns: nat

    ghost function Now(): State
      reads this
    {
      State(kind, phase, items, reading, flight, readEnd, stop, requests, answers, written, eofs, shutdowns)
    }

    constructor (kind: Kind, server: Server)
      ensures this.kind == kind && this.server == server
      ensures Now() == Fresh(kind)
    {
      this.kind, this.server := kind, server;
      items := [];
      phase, reading, flight, readEnd, stop := Created, false, None, NotEnded, NotStopped;
      requests, answers, written, eofs, shutdowns := [], [], [], 0, 0;
    }

    /** `run` of either session kind. */
    method Run()
      requires Now() == Fresh(kind)
      modifies this
      ensures Now() == Started(kind) && Inv(Now())
    {
      if kind == Plain {
        phase := Open;
        DoRead();
      } else {
        phase := Shaking;
      }
    }

    method OnHandshake(ok: bool)
      requires Inv(Now()) && phase.Shaking?
      modifies this
      ensures Now() == Next(old(Now()), if ok then HandshakeOk else HandshakeError)
      ensures Inv(Now())
    {
      StepKeepsInv(Now(), if ok then HandshakeOk else HandshakeError);
      if !ok {
        phase := Dead;
        return;
      }
      phase := Open;
      DoRead();
    }

    /** Starts a read with a parser of its own: none may be in use. */
    method DoRead()
      requires phase.Open? && !reading && readEnd.NotEnded?
      modifies this
      ensures Now() == Armed(old(Now()))
    {
      reading := true;
    }

    /** A queued item's call operator: starts its write. None may be outstanding. */
    method StartWrite()
      requires items != [] && flight == None && stop.NotStopped?
      modifies this
      ensures Now() == WriteFront(old(Now()))
    {
      flight := Some(items[0]);
    }

    method DoEof()
      modifies this
      ensures Now() == Eof(old(Now()))
    {
      eofs := eofs + 1;
      if kind == Ssl {
        shutdowns := shutdowns + 1;
      }
    }

    /** `on_shutdown`: either way nothing more is started. */
    method OnShutdown(ok: bool)
      requires Inv(Now()) && shutdowns > 0
      modifies this
      ensures Now() == Next(old(Now()), if ok then ShutdownOk else ShutdownError)
      ensures Inv(Now())
    {
      StepKeepsInv(Now(), if ok then ShutdownOk else ShutdownError);
      shutdowns := shutdowns - 1;
    }

    predicate IsFull()
      reads this
    {
      |items| >= LIMIT
    }

    /** `queue::operator()`: only the first response starts a write. */
    method Send(r: Response)
      requires !IsFull() && (items == [] ==> flight == None && stop.NotStopped?)
      modifies this
      ensures Now() == Enqueue(old(Now()), r)
    {
      items := items + [r];
      if |items| == 1 {
        StartWrite();
      }
    }

    /** `queue::on_write`: drops the item written and starts the next. */
    method QueueOnWrite() returns (wasFull: bool)
      requires items != [] && flight == None && stop.NotStopped?
      modifies this
      ensures wasFull == (|old(items)| >= LIMIT)
      ensures items == old(items)[1..]
      ensures Now() == old(Now()).(items := items, flight := if items == [] then None else Some(items[0]))
    {
      wasFull := IsFull();
      items := items[1..];
      if items != [] {
        StartWrite();
      }
    }

    /** `on_read`. Returns true when the handler's exception escapes. */
    method OnRead(result: ReadResult, env: Env) returns (thrown: bool)
      requires Inv(Now()) && reading
      requires result.Message? ==> |result.req.body| <= BODY_LIMIT
      requires Generate.ValidWords(server.cfg.words)
      modifies this, server
      ensures result.Message? ==>
                var o := Handle(server.cfg, old(server.urls), result.req, env);
                && server.urls == o.table
                && thrown == o.response.None?
                && (!thrown ==> Now() == Next(old(Now()), ReadOk(result.req, o.response.value)))
      ensures !result.Message? ==>
                && !thrown && server.urls == old(server.urls)
                && Now() == Next(old(Now()), if result.StreamEnd? then ReadEof else ReadError)
      ensures !thrown ==> Inv(Now())
    {
      hide Handle, Conserved, Ended;
      ghost var s := Now();
      reading := false;
      thrown := false;
      match result {
        case StreamEnd =>
          readEnd := ReadEnd.EndOfStream;
          DoEof();
          StepKeepsInv(s, ReadEof);
        case Failure =>
          readEnd := ReadFailed;
          StepKeepsInv(s, ReadError);
        case Message(req) =>
          var response := server.HandleRequest(req, env);
          if response.None? {
            return true;
          }
          requests := requests + [req];
          answers := answers + [response.value];
          StepKeepsInv(s, ReadOk(req, response.value));
          Send(response.value);
          if !IsFull() {
            DoRead();
          }
      }
    }

    /** `on_write`; `close` is what the write's own response asked for. */
    method OnWrite(close: bool, ok: bool)
      requires Inv(Now()) && flight.Some? && close == flight.value.needEof
      modifies this
      ensures Now() == Next(old(Now()), if ok then WriteOk else WriteError)
      ensures Inv(Now())
    {
      ghost var s := Now();
      StepKeepsInv(s, if ok then WriteOk else WriteError);
      ghost var done := flight.value;
      flight := None;
      if !ok {
        stop := WriteFailed;
        return;
      }
      written := written + [done];
      if close {
        stop := Closed;
        DoEof();
        return;
      }
      var resume := QueueOnWrite();
      if resume {
        DoRead();
      }
    }
  }
}
