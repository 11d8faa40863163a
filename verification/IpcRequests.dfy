module IpcRequests {
  // What a POSIX client may say about its request, over every run of client, connections and server. The steps come
  // in any order: bytes move in pieces of any size, either side may give up wherever it may time out, and the client
  // goes on to another connection.

  import opened Text
  import opened IpcFraming

  const HANDSHAKE_LIMIT := 64 * 1024

  // ----- Messages -----

  datatype Verdict = Result(value: string) | Error(error: string)

  const NO_HANDLER := Error("No handler registered")
  const HANDLER_FAILED := Error("IPC handler failed")
  const MALFORMED := Error("Malformed JSON")

  datatype Request = Request(id: nat, body: string)

  datatype Response = Response(id: Option<nat>, verdict: Verdict)

  /** What the JSON library does with the two messages; `handshake` is whether a request's method is the
      session handshake, whose response is capped lower. */
  datatype Wire = Wire(
    request: Request -> Bytes,
    parseRequest: Bytes -> Option<Request>,
    response: Response -> Bytes,
    parseResponse: Bytes -> Option<Response>,
    handshake: string -> bool)
  {
    /** What is written is read back, and nothing that stops short of the closing brace is read at all. */
    ghost predicate Faithful() {
      && (forall r :: parseRequest(request(r)) == Some(r))
      && (forall r, k: nat :: k < |request(r)| ==> parseRequest(request(r)[..k]) == None)
      && (forall r :: parseResponse(response(r)) == Some(r))
      && (forall r, k: nat :: k < |response(r)| ==> parseResponse(response(r)[..k]) == None)
    }
  }

  // ----- The two ends -----

  /** What the handler did with a request. */
  datatype Handled = Answered(verdict: Verdict) | Threw

  function VerdictOf(h: Handled): Verdict {
    if h.Threw? then HANDLER_FAILED else h.verdict
  }

  datatype HandlerRun = HandlerRun(request: Request, handled: Handled)

  /** The server's slot on one connection: how much of a frame it has read, a request read whole and
      waiting for the handler, or how much of a response it has written. */
  datatype Server = Reading(got: Bytes) | Ready(payload: Bytes) | Replying(offset: nat) | Gone

  /** One connection. `up` and `down` are the bytes on their way; `last` is the request whose frame the
      client last began to write (0 for none) and `offset` how much of it went out. Whether the server
      has answered that request, and with what, is kept as history. */
  datatype Conn = Conn(up: Bytes, down: Bytes, server: Server, last: nat, offset: nat, answered: bool, reply: Response)

  const NEW_CONN := Conn([], [], Reading([]), 0, 0, true, Response(None, MALFORMED))

  datatype Client = Idle | Sending | Receiving(got: Bytes)

  datatype Outcome =
    | Returned(id: nat, verdict: Verdict)
    | Failed(id: nat, outcomeUnknown: bool)
    | NotConnected

  /** `asked[id - 1]` is the body of request `id`. */
  datatype State = State(
    client: Client,
    current: Option<nat>,
    asked: seq<string>,
    conns: seq<Conn>,
    log: seq<HandlerRun>,
    outcomes: seq<Outcome>)

  const START := State(Idle, None, [], [], [], [])

  function RequestOf(asked: seq<string>, id: nat): Request
    requires 0 < id <= |asked|
  {
    Request(id, asked[id - 1])
  }

  function FrameOf(w: Wire, asked: seq<string>, id: nat): Bytes
    requires 0 < id <= |asked|
  {
    FrameMessage(w.request(RequestOf(asked, id)))
  }

  function ReplyFrame(w: Wire, c: Conn): Bytes {
    FrameMessage(w.response(c.reply))
  }

  /** How many bytes a reader that holds `got` still asks for: the prefix first, then what it claims. */
  function Wanted(got: Bytes): nat {
    if |got| < PREFIX then PREFIX - |got|
    else
      var whole := PREFIX + DecodeFrameLength(got[..PREFIX]);
      if |got| < whole then whole - |got| else 0
  }

  // ----- Steps -----

  datatype Step =
    | ConnectFails
    | Connect
    | Drop                                    // idle too long, the peer is gone, or disconnect()
    | Ask(body: string)
    | Send(n: nat)
    | SendFails
    | Receive(n: nat)
    | ReceiveEnds
    | ReceiveFails
    | ServerReads(c: nat, n: nat)
    | ServerHasFrame(c: nat)
    | ServerAnswers(c: nat, handled: Option<Handled>)   // None: no handler is registered
    | ServerReplies(c: nat, n: nat)
    | ServerLeaves(c: nat)

  predicate Busy(s: State) {
    s.current.Some? && s.current.value < |s.conns| && 0 < s.conns[s.current.value].last <= |s.asked|
  }

  function Now(s: State): Conn
    requires Busy(s)
  {
    s.conns[s.current.value]
  }

  function Unsent(w: Wire, s: State): int
    requires Busy(s)
  {
    |FrameOf(w, s.asked, Now(s).last)| - Now(s).offset
  }

  predicate Complete(got: Bytes, maximum: nat) {
    !ReadFrame(got, maximum).Short?
  }

  function Limit(w: Wire, s: State): nat
    requires Busy(s)
  {
    if w.handshake(s.asked[Now(s).last - 1]) then HANDSHAKE_LIMIT else MAXIMUM_FRAME
  }

  predicate ClientMay(w: Wire, s: State, step: Step) {
    match step
    case ConnectFails => s.client.Idle? && s.current.None?
    case Connect => s.client.Idle? && s.current.None?
    case Drop => s.client.Idle? && s.current.Some?
    case Ask(_) => s.client.Idle? && s.current.Some? && s.current.value < |s.conns|
    case Send(n) => s.client.Sending? && Busy(s) && 0 < n <= Unsent(w, s)
    case SendFails => s.client.Sending? && Busy(s)
    case Receive(n) => s.client.Receiving? && Busy(s) && 0 < n <= |Now(s).down| && n <= Wanted(s.client.got)
    case ReceiveEnds => s.client.Receiving? && Busy(s) && Complete(s.client.got, Limit(w, s))
    case ReceiveFails => s.client.Receiving? && Busy(s) && !Complete(s.client.got, Limit(w, s))
    case _ => false
  }

  predicate ServerMay(k: Conn, step: Step) {
    match step
    case ServerReads(_, n) => k.server.Reading? && 0 < n <= |k.up| && n <= Wanted(k.server.got)
    case ServerHasFrame(_) => k.server.Reading? && Complete(k.server.got, MAXIMUM_FRAME)
    case ServerAnswers(_, _) => k.server.Ready?
    case ServerReplies(_, n) => k.server.Replying? && n > 0
    case ServerLeaves(_) => !k.server.Gone?
    case _ => false
  }

  predicate OfServer(step: Step) {
    step.ServerReads? || step.ServerHasFrame? || step.ServerAnswers? || step.ServerReplies? || step.ServerLeaves?
  }

  predicate May(w: Wire, s: State, step: Step) {
    if OfServer(step) then step.c < |s.conns| && ServerMay(s.conns[step.c], step) && Fits(w, s.conns[step.c], step)
    else ClientMay(w, s, step)
  }

  predicate Fits(w: Wire, k: Conn, step: Step) {
    step.ServerReplies? ==> k.server.Replying? && k.server.offset + step.n <= |ReplyFrame(w, k)|
  }

  function WithNow(s: State, k: Conn): State
    requires Busy(s)
  {
    s.(conns := s.conns[s.current.value := k])
  }

  /** The request ends without a result: the client gives its connection up. */
  function GiveUp(s: State, unknown: bool): State
    requires Busy(s)
  {
    s.(client := Idle, current := None, outcomes := s.outcomes + [Failed(Now(s).last, unknown)])
  }

  /** What the client makes of a response read whole, or of a length it does not take. */
  function Concluded(w: Wire, s: State): State
    requires Busy(s) && s.client.Receiving?
  {
    var read := ReadFrame(s.client.got, Limit(w, s));
    if !read.Completed? then GiveUp(s, true)
    else
      var parsed := w.parseResponse(read.payload);
      if parsed.None? || parsed.value.id != Some(Now(s).last) then GiveUp(s, true)
      else s.(client := Idle, outcomes := s.outcomes + [Returned(Now(s).last, parsed.value.verdict)])
  }

  function ClientNext(w: Wire, s: State, step: Step): State
    requires ClientMay(w, s, step)
  {
    match step
    case ConnectFails => s.(outcomes := s.outcomes + [NotConnected])
    case Connect => s.(current := Some(|s.conns|), conns := s.conns + [NEW_CONN])
    case Drop => s.(current := None)
    case Ask(body) =>
      var c := s.current.value;
      s.(client := Sending, asked := s.asked + [body],
         conns := s.conns[c := s.conns[c].(last := |s.asked| + 1, offset := 0, answered := false)])
    case Send(n) =>
      var k := Now(s);
      WithNow(s, k.(up := k.up + FrameOf(w, s.asked, k.last)[k.offset..k.offset + n], offset := k.offset + n))
        .(client := if n == Unsent(w, s) then Receiving([]) else Sending)
    case SendFails => GiveUp(s, false)
    case Receive(n) =>
      var k := Now(s);
      WithNow(s, k.(down := k.down[n..])).(client := Receiving(s.client.got + k.down[..n]))
    case ReceiveEnds => Concluded(w, s)
    case ReceiveFails => GiveUp(s, true)
  }

  /** The response to a payload, and the handler's run if it ran. */
  function AnswerTo(w: Wire, payload: Bytes, handled: Option<Handled>): (Response, seq<HandlerRun>) {
    match w.parseRequest(payload)
    case None => (Response(None, MALFORMED), [])
    case Some(r) =>
      if handled.None? then (Response(Some(r.id), NO_HANDLER), [])
      else (Response(Some(r.id), VerdictOf(handled.value)), [HandlerRun(r, handled.value)])
  }

  function ServerNext(w: Wire, k: Conn, step: Step): Conn
    requires ServerMay(k, step) && Fits(w, k, step)
  {
    match step
    case ServerReads(_, n) => k.(up := k.up[n..], server := Reading(k.server.got + k.up[..n]))
    case ServerHasFrame(_) =>
      var read := ReadFrame(k.server.got, MAXIMUM_FRAME);
      k.(server := if read.Completed? then Ready(read.payload) else Gone)
    case ServerAnswers(_, handled) =>
      k.(server := Replying(0), answered := true, reply := AnswerTo(w, k.server.payload, handled).0)
    case ServerReplies(_, n) =>
      var frame := ReplyFrame(w, k);
      var offset := k.server.offset + n;
      k.(down := k.down + frame[k.server.offset..offset],
         server := if offset == |frame| then Reading([]) else Replying(offset))
    case ServerLeaves(_) => k.(server := Gone)
  }

  function Next(w: Wire, s: State, step: Step): State
    requires May(w, s, step)
  {
    if OfServer(step) then
      s.(conns := s.conns[step.c := ServerNext(w, s.conns[step.c], step)],
         log := if step.ServerAnswers? then s.log + AnswerTo(w, s.conns[step.c].server.payload, step.handled).1 else s.log)
    else ClientNext(w, s, step)
  }

  // ----- Runs -----

  predicate Allowed(w: Wire, s: State, steps: seq<Step>)
    decreases |steps|
  {
    steps != [] ==> May(w, s, steps[0]) && Allowed(w, Next(w, s, steps[0]), steps[1..])
  }

  function After(w: Wire, s: State, steps: seq<Step>): State
    requires Allowed(w, s, steps)
    decreases |steps|
  {
    if steps == [] then s else After(w, Next(w, s, steps[0]), steps[1..])
  }

  // ----- What every step keeps -----

  predicate RunsOnly(log: seq<HandlerRun>, id: nat, k: nat) {
    k < |log| && log[k].request.id == id && forall i :: 0 <= i < |log| && log[i].request.id == id ==> i == k
  }

  predicate NeverRan(log: seq<HandlerRun>, id: nat) {
    forall i :: 0 <= i < |log| ==> log[i].request.id != id
  }

  /** What a response may say: the verdict of the one run of the very request it answers, or an error of
      the server's own when the handler never ran it. */
  ghost predicate Truthful(asked: seq<string>, log: seq<HandlerRun>, id: nat, verdict: Verdict)
    requires 0 < id <= |asked|
  {
    || (verdict == NO_HANDLER && NeverRan(log, id))
    || exists k: nat :: RunsOnly(log, id, k) && log[k].request == RequestOf(asked, id) && VerdictOf(log[k].handled) == verdict
  }

  /** What the server has of the request `k.last`. */
  ghost predicate ServerHas(w: Wire, asked: seq<string>, k: Conn)
    requires 0 < k.last <= |asked|
  {
    var frame := FrameOf(w, asked, k.last);
    && k.offset <= |frame|
    && if k.answered then
         k.offset == |frame|
         && (k.server.Gone? || (k.up == [] && (k.server == Reading([])
             || (k.server.Replying? && k.server.offset < |ReplyFrame(w, k)|))))
       else
         match k.server
         case Reading(got) => got + k.up == frame[..k.offset]
         case Ready(payload) =>
           k.up == [] && k.offset == |frame| && payload == Carried(w.request(RequestOf(asked, k.last)))
         case Replying(_) => false
         case Gone => true
  }

  ghost predicate ConnInv(w: Wire, asked: seq<string>, log: seq<HandlerRun>, k: Conn) {
    && k.last <= |asked|
    && if k.last == 0 then
         k.answered && (k.server.Gone? || (k.up == [] && k.server == Reading([])))
       else
         && ServerHas(w, asked, k)
         && if !k.answered then NeverRan(log, k.last)
            else if k.reply.id.None? then NeverRan(log, k.last)
            else k.reply.id == Some(k.last) && Truthful(asked, log, k.last, k.reply.verdict)
  }

  /** What the client has of the response on its connection. */
  ghost predicate ClientHas(w: Wire, s: State, k: Conn) {
    match s.client
    case Idle => k.down == [] && k.answered && !k.server.Replying? && !k.server.Ready?
    case Sending =>
      && k.last == |s.asked| > 0 && k.offset < |FrameOf(w, s.asked, k.last)|
      && k.down == [] && !k.answered
    case Receiving(got) =>
      && k.last == |s.asked| > 0 && k.offset == |FrameOf(w, s.asked, k.last)|
      && if !k.answered then got == [] && k.down == []
         else
           && got + k.down <= ReplyFrame(w, k)
           && (k.server.Replying? ==> got + k.down == ReplyFrame(w, k)[..Min(k.server.offset, |ReplyFrame(w, k)|)])
           && (k.server.Reading? ==> got + k.down == ReplyFrame(w, k))
  }

  ghost predicate CurrentInv(w: Wire, s: State) {
    match s.current
    case None => s.client.Idle?
    case Some(c) => c < |s.conns| && ClientHas(w, s, s.conns[c])
  }

  predicate LogInv(asked: seq<string>, log: seq<HandlerRun>) {
    && (forall i, j :: 0 <= i < j < |log| ==> log[i].request.id != log[j].request.id)
    && (forall i :: 0 <= i < |log| ==> RunOfAsked(asked, log[i]))
  }

  predicate RunOfAsked(asked: seq<string>, run: HandlerRun) {
    0 < run.request.id <= |asked| && run.request == RequestOf(asked, run.request.id)
  }

  /** What stays true of what the client was told, whatever its old connections still do. */
  ghost predicate Holds(w: Wire, s: State, o: Outcome) {
    match o
    case NotConnected => true
    case Returned(id, verdict) =>
      && 0 < id <= |s.asked| && Truthful(s.asked, s.log, id, verdict)
      && forall c :: 0 <= c < |s.conns| && s.conns[c].last == id ==> s.conns[c].answered
    case Failed(id, unknown) =>
      && 0 < id <= |s.asked|
      && (exists c :: 0 <= c < |s.conns| && LeftBehind(w, s, c, id, unknown))
      && (!unknown ==> NeverRan(s.log, id) && forall c :: 0 <= c < |s.conns| && s.conns[c].last == id ==> CutShort(w, s, c))
  }

  /** The request ended on this connection, and `written` tells whether its frame was written to the end. */
  ghost predicate LeftBehind(w: Wire, s: State, c: nat, id: nat, written: bool)
    requires c < |s.conns|
  {
    var k := s.conns[c];
    && 0 < k.last == id <= |s.asked| && s.current != Some(c)
    && (written <==> k.offset == |FrameOf(w, s.asked, id)|) && k.offset <= |FrameOf(w, s.asked, id)|
  }

  /** The frame on this connection was not written to its end and never will be. */
  ghost predicate CutShort(w: Wire, s: State, c: nat)
    requires c < |s.conns|
  {
    var k := s.conns[c];
    0 < k.last <= |s.asked| && k.offset < |FrameOf(w, s.asked, k.last)| && s.current != Some(c)
  }

  ghost predicate Inv(w: Wire, s: State) {
    && (forall c :: 0 <= c < |s.conns| ==> ConnInv(w, s.asked, s.log, s.conns[c]))
    && (forall c, d :: 0 <= c < d < |s.conns| && s.conns[c].last == s.conns[d].last ==> s.conns[c].last == 0)
    && CurrentInv(w, s)
    && LogInv(s.asked, s.log)
    && (forall i :: 0 <= i < |s.outcomes| ==> Holds(w, s, s.outcomes[i]))
  }

  lemma StartInv(w: Wire)
    ensures Inv(w, START)
  {
  }

  // ----- The handler's log -----

  /** What the server makes of a request read whole: one run of that very request, or none at all. */
  lemma AnswersTheRequest(w: Wire, asked: seq<string>, log: seq<HandlerRun>, k: Conn, handled: Option<Handled>)
    requires w.Faithful() && ConnInv(w, asked, log, k) && k.server.Ready? && LogInv(asked, log)
    ensures 0 < k.last <= |asked| && !k.answered
    ensures var a := AnswerTo(w, k.server.payload, handled);
      && (a.1 == [] || (handled.Some? && a.1 == [HandlerRun(RequestOf(asked, k.last), handled.value)]))
      && LogInv(asked, log + a.1)
      && (a.0.id.None? ==> NeverRan(log + a.1, k.last))
      && (a.0.id.Some? ==> a.0.id.value == k.last && Truthful(asked, log + a.1, k.last, a.0.verdict))
  {
    hide Wire.Faithful;
    var r := RequestOf(asked, k.last);
    ParsesWhatWasSent(w, r);
    var a := AnswerTo(w, k.server.payload, handled);
    if a.1 != [] {
      assert RunsOnly(log + a.1, k.last, |log|);
    } else {
      assert log + a.1 == log;
    }
  }

  lemma ParsesWhatWasSent(w: Wire, r: Request)
    requires w.Faithful()
    ensures w.parseRequest(Carried(w.request(r))) in {None, Some(r)}
  {
    var payload := w.request(r);
    if |payload| < WORD { assert Carried(payload) == payload; }
  }

  /** A run of one request changes nothing that is said about another. */
  lemma OtherRun(asked: seq<string>, log: seq<HandlerRun>, runs: seq<HandlerRun>, id: nat, verdict: Verdict)
    requires 0 < id <= |asked| && |runs| <= 1 && forall run <- runs :: run.request.id != id
    ensures NeverRan(log, id) ==> NeverRan(log + runs, id)
    ensures Truthful(asked, log, id, verdict) ==> Truthful(asked, log + runs, id, verdict)
  {
    forall k: nat | RunsOnly(log, id, k) ensures RunsOnly(log + runs, id, k) {}
  }

  lemma OtherConnKeeps(w: Wire, asked: seq<string>, log: seq<HandlerRun>, runs: seq<HandlerRun>, k: Conn)
    requires ConnInv(w, asked, log, k) && |runs| <= 1 && forall run <- runs :: run.request.id != k.last
    ensures ConnInv(w, asked, log + runs, k)
  {
    hide ServerHas, Truthful;
    if k.last > 0 { OtherRun(asked, log, runs, k.last, k.reply.verdict); }
  }

  // ----- One step of the server -----

  function RunsOf(w: Wire, k: Conn, step: Step): seq<HandlerRun>
    requires ServerMay(k, step)
  {
    if step.ServerAnswers? then AnswerTo(w, k.server.payload, step.handled).1 else []
  }

  /** The server's reading never runs past the frame the client is sending. */
  lemma ServerReadKeeps(w: Wire, asked: seq<string>, k: Conn, n: nat)
    requires 0 < k.last <= |asked| && ServerHas(w, asked, k) && ServerMay(k, ServerReads(0, n))
    ensures ServerHas(w, asked, ServerNext(w, k, ServerReads(0, n)))
  {
    hide FrameOf, Wanted, ReplyFrame;
    assert k.server.got + k.up[..n] + k.up[n..] == k.server.got + k.up;
  }

  lemma ServerHasFrameKeeps(w: Wire, asked: seq<string>, k: Conn)
    requires 0 < k.last <= |asked| && ServerHas(w, asked, k) && ServerMay(k, ServerHasFrame(0))
    ensures ServerHas(w, asked, ServerNext(w, k, ServerHasFrame(0)))
  {
    var payload := w.request(RequestOf(asked, k.last));
    var frame := FrameMessage(payload);
    var got := k.server.got;
    hide FrameMessage, ReadFrame;
    EmptyIsShort();
    if !k.answered && ReadFrame(got, MAXIMUM_FRAME).Completed? {
      assert got == frame[..|got|];
      WholeFrameRead(payload, |got|, MAXIMUM_FRAME);
      assert got == frame && k.up == [];
    }
  }

  lemma EmptyIsShort()
    ensures forall maximum: nat :: ReadFrame([], maximum).Short?
  {
  }

  /** A reader that has read a frame whole off the beginning of one has read all of it. */
  lemma WholeFrameRead(payload: Bytes, n: nat, maximum: nat)
    requires n <= |FrameMessage(payload)| && ReadFrame(FrameMessage(payload)[..n], maximum).Completed?
    ensures n == |FrameMessage(payload)| && ReadFrame(FrameMessage(payload)[..n], maximum).payload == Carried(payload)
  {
    var frame := FrameMessage(payload);
    LengthRoundTrip(|Carried(payload)|);
    assert frame[..n][..PREFIX] == Prefix(|Carried(payload)|);
    assert frame[PREFIX..PREFIX + |Carried(payload)|] == Carried(payload);
  }

  lemma ServerConnKeeps(w: Wire, asked: seq<string>, log: seq<HandlerRun>, k: Conn, step: Step)
    requires w.Faithful() && ConnInv(w, asked, log, k) && LogInv(asked, log)
    requires ServerMay(k, step) && Fits(w, k, step)
    ensures ConnInv(w, asked, log + RunsOf(w, k, step), ServerNext(w, k, step))
    ensures LogInv(asked, log + RunsOf(w, k, step))
    ensures forall run <- RunsOf(w, k, step) :: 0 < k.last && !k.answered && run.request.id == k.last
    ensures |RunsOf(w, k, step)| <= 1
  {
    hide Wire.Faithful, Truthful, FrameOf, Wanted, ReadFrame, FrameMessage, LogInv, AnswerTo;
    assert log + [] == log;
    match step
    case ServerReads(_, n) =>
      if k.last > 0 { hide ServerHas; ServerReadKeeps(w, asked, k, n); }
    case ServerHasFrame(_) =>
      if k.last > 0 { hide ServerHas; ServerHasFrameKeeps(w, asked, k); } else { EmptyIsShort(); }
    case ServerAnswers(_, handled) =>
      AnswersTheRequest(w, asked, log, k, handled);
      ReplyIsNotEmpty(w, ServerNext(w, k, step));
    case ServerReplies(_, n) =>
    case ServerLeaves(_) =>
  }

  lemma ReplyIsNotEmpty(w: Wire, k: Conn)
    ensures |ReplyFrame(w, k)| > 0
  {
  }

  /** A step of the server, seen from the client's end of the same connection. */
  lemma ServerStepSeen(w: Wire, s: State, k: Conn, step: Step)
    requires ConnInv(w, s.asked, s.log, k) && ClientHas(w, s, k) && ServerMay(k, step) && Fits(w, k, step)
    ensures ClientHas(w, s, ServerNext(w, k, step))
  {
    hide Truthful, FrameOf, Wanted, FrameMessage, AnswerTo, NeverRan, Wire.Faithful;
    match step
    case ServerReads(_, n) =>
      if k.answered { hide ReadFrame; }
    case ServerHasFrame(_) =>
      if k.answered { EmptyIsShort(); }
      hide ReadFrame;
    case ServerAnswers(_, handled) =>
      hide ReplyFrame;
      if s.client.Receiving? { assert s.client.got + k.down == ReplyFrame(w, ServerNext(w, k, step))[..0]; }
    case ServerReplies(_, n) =>
      if s.client.Receiving? { hide ReadFrame; RepliesOn(w, k, n, s.client.got); }
    case ServerLeaves(_) =>
  }

  lemma RepliesOn(w: Wire, k: Conn, n: nat, got: Bytes)
    requires k.server.Replying? && 0 < n && k.server.offset + n <= |ReplyFrame(w, k)|
    requires got + k.down == ReplyFrame(w, k)[..k.server.offset]
    ensures got + (k.down + ReplyFrame(w, k)[k.server.offset..k.server.offset + n])
         == ReplyFrame(w, k)[..k.server.offset + n]
  {
    hide ReplyFrame;
    var frame := ReplyFrame(w, k);
    assert (got + k.down) + frame[k.server.offset..k.server.offset + n] == frame[..k.server.offset + n];
  }

  /** What was told stays true over a step of the server. */
  lemma ServerStepHolds(w: Wire, s: State, t: State, c: nat, runs: seq<HandlerRun>, o: Outcome)
    requires c < |s.conns| == |t.conns| && t.asked == s.asked && t.log == s.log + runs && t.current == s.current
    requires forall d :: 0 <= d < |s.conns| && d != c ==> t.conns[d] == s.conns[d]
    requires t.conns[c].last == s.conns[c].last && t.conns[c].offset == s.conns[c].offset
    requires s.conns[c].answered ==> t.conns[c].answered
    requires |runs| <= 1 && forall run <- runs ::
      run.request.id == s.conns[c].last && !s.conns[c].answered && 0 < s.conns[c].last <= |s.asked|
      && s.conns[c].offset == |FrameOf(w, s.asked, s.conns[c].last)|
    requires Holds(w, s, o)
    ensures Holds(w, t, o)
  {
    hide FrameOf, Truthful, NeverRan;
    match o
    case NotConnected =>
    case Returned(id, verdict) => OtherRun(s.asked, s.log, runs, id, verdict);
    case Failed(id, unknown) =>
      var l :| 0 <= l < |s.conns| && LeftBehind(w, s, l, id, unknown);
      assert LeftBehind(w, t, l, id, unknown);
      if !unknown {
        forall d | 0 <= d < |t.conns| && t.conns[d].last == id ensures CutShort(w, t, d) { assert CutShort(w, s, d); }
        assert s.conns[c].last == id ==> CutShort(w, s, c);
        OtherRun(s.asked, s.log, runs, id, NO_HANDLER);
      }
  }

  lemma ServerStepFacts(w: Wire, asked: seq<string>, k: Conn, step: Step)
    requires 0 < k.last <= |asked| && ServerHas(w, asked, k) && ServerMay(k, step) && Fits(w, k, step)
    ensures var k' := ServerNext(w, k, step);
      k'.last == k.last && k'.offset == k.offset && (k.answered ==> k'.answered)
    ensures RunsOf(w, k, step) != [] ==> k.offset == |FrameOf(w, asked, k.last)|
  {
    hide FrameOf, ReadFrame;
  }

  lemma {:induction false} ServerStepKeepsInv(w: Wire, s: State, step: Step)
    requires w.Faithful() && Inv(w, s) && May(w, s, step) && OfServer(step)
    ensures Inv(w, Next(w, s, step))
  {
    hide Wire.Faithful, ConnInv, ServerMay, ServerNext, LogInv, RunsOf, Fits, ClientHas, ServerHas, Holds, AnswerTo;
    var c := step.c;
    var k := s.conns[c];
    var t := Next(w, s, step);
    var runs := RunsOf(w, k, step);
    assert t.log == s.log + runs by { LogOfStep(w, s, step); }
    ServerConnKeeps(w, s.asked, s.log, k, step);
    KeepsLast(w, s.asked, s.log, k, step);
    forall d | 0 <= d < |t.conns| ensures ConnInv(w, t.asked, t.log, t.conns[d]) {
      if d != c {
        assert s.conns[d].last == k.last ==> k.last == 0;
        OtherConnKeeps(w, s.asked, s.log, runs, s.conns[d]);
      }
    }
    if s.current == Some(c) {
      ServerStepSeen(w, s, k, step);
      ClientHasSame(w, s, t, t.conns[c]);
    } else if s.current.Some? {
      ClientHasSame(w, s, t, t.conns[s.current.value]);
    }
    forall i | 0 <= i < |t.outcomes| ensures Holds(w, t, t.outcomes[i]) {
      ServerStepHolds(w, s, t, c, runs, s.outcomes[i]);
    }
  }

  lemma LogOfStep(w: Wire, s: State, step: Step)
    requires May(w, s, step) && OfServer(step)
    ensures Next(w, s, step).log == s.log + RunsOf(w, s.conns[step.c], step)
  {
    assert s.log + [] == s.log;
  }

  lemma KeepsLast(w: Wire, asked: seq<string>, log: seq<HandlerRun>, k: Conn, step: Step)
    requires ConnInv(w, asked, log, k) && ServerMay(k, step) && Fits(w, k, step)
    ensures var k' := ServerNext(w, k, step);
      k'.last == k.last && k'.offset == k.offset && (k.answered ==> k'.answered)
    ensures RunsOf(w, k, step) != [] ==> 0 < k.last <= |asked| && k.offset == |FrameOf(w, asked, k.last)|
  {
    hide ServerHas, ServerNext, RunsOf;
    if k.last > 0 {
      ServerStepFacts(w, asked, k, step);
    } else {
      NewConnSteps(w, k, step);
    }
  }

  lemma NewConnSteps(w: Wire, k: Conn, step: Step)
    requires ServerMay(k, step) && Fits(w, k, step) && k.answered && (k.server.Gone? || k.server.Reading?)
    ensures var k' := ServerNext(w, k, step);
      k'.last == k.last && k'.offset == k.offset && k'.answered && RunsOf(w, k, step) == []
  {
    hide ReadFrame;
  }

  /** What the client has depends on its own side and the connection only. */
  lemma ClientHasSame(w: Wire, s: State, t: State, k: Conn)
    requires ClientHas(w, s, k) && t.client == s.client && t.asked == s.asked
    ensures ClientHas(w, t, k)
  {
  }

  // ----- One step of the client -----

  /** What is said of requests asked before stays true when another is asked. */
  lemma AskedGrows(w: Wire, asked: seq<string>, body: string, log: seq<HandlerRun>, k: Conn)
    requires ConnInv(w, asked, log, k)
    ensures ConnInv(w, asked + [body], log, k)
  {
    hide FrameMessage, ReadFrame, NeverRan, RunsOnly;
  }

  lemma LogOfMore(asked: seq<string>, body: string, log: seq<HandlerRun>)
    requires LogInv(asked, log)
    ensures LogInv(asked + [body], log) && NeverRan(log, |asked| + 1)
  {
    forall i | 0 <= i < |log| ensures RunOfAsked(asked + [body], log[i]) { assert RunOfAsked(asked, log[i]); }
    forall i | 0 <= i < |log| ensures log[i].request.id != |asked| + 1 { assert RunOfAsked(asked, log[i]); }
  }

  lemma TruthOfMore(asked: seq<string>, body: string, log: seq<HandlerRun>, id: nat, verdict: Verdict)
    requires 0 < id <= |asked| && Truthful(asked, log, id, verdict)
    ensures Truthful(asked + [body], log, id, verdict)
  {
    hide RunsOnly;
  }

  lemma AskKeepsInv(w: Wire, s: State, body: string)
    requires Inv(w, s) && ClientMay(w, s, Ask(body))
    ensures Inv(w, ClientNext(w, s, Ask(body)))
  {
    hide FrameMessage, ReadFrame, NeverRan, Truthful, ConnInv, LogInv, ReplyFrame;
    var t := ClientNext(w, s, Ask(body));
    var c := s.current.value;
    LogOfMore(s.asked, body, s.log);
    FrameIsNotEmpty(w, t.asked, |t.asked|);
    forall d | 0 <= d < |t.conns| ensures ConnInv(w, t.asked, t.log, t.conns[d]) {
      AskedGrows(w, s.asked, body, s.log, s.conns[d]);
      if d == c { AskedConn(w, s, body); }
    }
    OldLastsAreSmall(w, s);
    forall i | 0 <= i < |t.outcomes| ensures Holds(w, t, t.outcomes[i]) { AskHolds(w, s, body, s.outcomes[i]); }
  }

  lemma FrameIsNotEmpty(w: Wire, asked: seq<string>, id: nat)
    requires 0 < id <= |asked|
    ensures |FrameOf(w, asked, id)| > 0
  {
  }

  lemma OldLastsAreSmall(w: Wire, s: State)
    requires forall c :: 0 <= c < |s.conns| ==> ConnInv(w, s.asked, s.log, s.conns[c])
    ensures forall c :: 0 <= c < |s.conns| ==> s.conns[c].last <= |s.asked|
  {
    hide ServerHas, Truthful, NeverRan;
  }

  lemma AskedConn(w: Wire, s: State, body: string)
    requires ClientMay(w, s, Ask(body)) && ConnInv(w, s.asked, s.log, s.conns[s.current.value])
    requires ClientHas(w, s, s.conns[s.current.value]) && NeverRan(s.log, |s.asked| + 1)
    ensures ConnInv(w, s.asked + [body], s.log, ClientNext(w, s, Ask(body)).conns[s.current.value])
  {
    hide FrameMessage, ReadFrame, NeverRan, Truthful;
    var k := ClientNext(w, s, Ask(body)).conns[s.current.value];
    assert FrameOf(w, s.asked + [body], k.last)[..0] == [];
  }

  lemma AskHolds(w: Wire, s: State, body: string, o: Outcome)
    requires ClientMay(w, s, Ask(body)) && Holds(w, s, o)
    ensures Holds(w, ClientNext(w, s, Ask(body)), o)
  {
    hide FrameMessage, NeverRan, Truthful;
    var t := ClientNext(w, s, Ask(body));
    match o
    case NotConnected =>
    case Returned(id, verdict) => TruthOfMore(s.asked, body, s.log, id, verdict);
    case Failed(id, unknown) =>
      var l :| 0 <= l < |s.conns| && LeftBehind(w, s, l, id, unknown);
      assert LeftBehind(w, t, l, id, unknown);
      if !unknown {
        forall d | 0 <= d < |t.conns| && t.conns[d].last == id ensures CutShort(w, t, d) { assert CutShort(w, s, d); }
      }
  }

  /** The other steps of the client touch its own connection at most. */
  predicate Same(s: State, t: State) {
    && t.asked == s.asked && t.log == s.log && |t.conns| >= |s.conns|
    && (forall d :: 0 <= d < |s.conns| && s.current != Some(d) ==> t.conns[d] == s.conns[d])
    && (forall d :: 0 <= d < |s.conns| ==> t.conns[d].last == s.conns[d].last && (s.conns[d].answered ==> t.conns[d].answered))
    && (forall d :: |s.conns| <= d < |t.conns| ==> t.conns[d] == NEW_CONN)
    && (t.current.Some? ==> t.current == s.current || t.current.value >= |s.conns|)
  }

  lemma SameHolds(w: Wire, s: State, t: State, o: Outcome)
    requires Same(s, t) && Holds(w, s, o)
    ensures Holds(w, t, o)
  {
    hide FrameMessage, NeverRan, Truthful;
    if o.Failed? {
      var l :| 0 <= l < |s.conns| && LeftBehind(w, s, l, o.id, o.outcomeUnknown);
      assert LeftBehind(w, t, l, o.id, o.outcomeUnknown);
    }
    if o.Failed? && !o.outcomeUnknown {
      forall d | 0 <= d < |t.conns| && t.conns[d].last == o.id ensures CutShort(w, t, d) { assert CutShort(w, s, d); }
    }
  }

  lemma SendKeeps(w: Wire, s: State, n: nat)
    requires ClientMay(w, s, Send(n)) && ConnInv(w, s.asked, s.log, Now(s)) && ClientHas(w, s, Now(s))
    ensures ConnInv(w, s.asked, s.log, Now(ClientNext(w, s, Send(n))))
  {
    var k := Now(s);
    var frame := FrameOf(w, s.asked, k.last);
    hide FrameOf, ReadFrame, NeverRan, Truthful, ReplyFrame;
    if k.server.Reading? {
      Prefixed(k.server.got, k.up, frame, k.offset, n);
    }
  }

  lemma Prefixed(got: Bytes, up: Bytes, frame: Bytes, offset: nat, n: nat)
    requires offset + n <= |frame| && got + up == frame[..offset]
    ensures got + (up + frame[offset..offset + n]) == frame[..offset + n]
  {
    assert (got + up) + frame[offset..offset + n] == frame[..offset + n];
  }

  lemma ReceiveKeeps(w: Wire, s: State, n: nat)
    requires ClientMay(w, s, Receive(n)) && ConnInv(w, s.asked, s.log, Now(s)) && ClientHas(w, s, Now(s))
    ensures var t := ClientNext(w, s, Receive(n));
      ConnInv(w, s.asked, s.log, Now(t)) && ClientHas(w, t, Now(t))
  {
    var k := Now(s);
    hide FrameOf, ReadFrame, NeverRan, Truthful, ReplyFrame, Wanted;
    assert s.client.got + k.down[..n] + k.down[n..] == s.client.got + k.down;
  }

  /** A response read whole was the whole response of this very connection, and says the truth. */
  lemma ConcludedKeeps(w: Wire, s: State)
    requires w.Faithful() && ClientMay(w, s, ReceiveEnds) && Concluded(w, s).current.Some?
    requires ConnInv(w, s.asked, s.log, Now(s)) && ClientHas(w, s, Now(s))
    ensures var k := Now(s);
      && k.answered && k.down == [] && !k.server.Replying? && !k.server.Ready?
      && k.reply.id == Some(k.last)
      && Concluded(w, s).outcomes == s.outcomes + [Returned(k.last, k.reply.verdict)]
  {
    var k := Now(s);
    var got := s.client.got;
    hide FrameOf, NeverRan, Truthful, Wire.Faithful, ReadFrame, FrameMessage;
    var maximum := Limit(w, s);
    if !k.answered {
      EmptyIsShort();
    } else {
      var payload := w.response(k.reply);
      assert got == FrameMessage(payload)[..|got|];
      WholeFrameRead(payload, |got|, maximum);
      ParsesWhatWasReplied(w, k.reply);
    }
  }

  lemma ParsesWhatWasReplied(w: Wire, r: Response)
    requires w.Faithful()
    ensures w.parseResponse(Carried(w.response(r))) in {None, Some(r)}
  {
    var payload := w.response(r);
    if |payload| < WORD { assert Carried(payload) == payload; }
  }

  /** The client's connection after a step, and its side of it. */
  lemma ClientConnKeeps(w: Wire, s: State, step: Step)
    requires w.Faithful() && Inv(w, s) && ClientMay(w, s, step) && !step.Ask?
    ensures var t := ClientNext(w, s, step);
      && CurrentInv(w, t) && Same(s, t)
      && forall c :: 0 <= c < |t.conns| ==> ConnInv(w, t.asked, t.log, t.conns[c])
  {
    hide FrameOf, ReadFrame, NeverRan, Truthful, ReplyFrame, Wanted, Wire.Faithful, LogInv, Concluded, Complete, Limit;
    match step
    case Send(n) => SendKeeps(w, s, n);
    case Receive(n) => ReceiveKeeps(w, s, n);
    case ReceiveEnds => ConcludedIsSame(w, s);
    case ConnectFails =>
    case Connect =>
    case Drop =>
    case SendFails =>
    case ReceiveFails =>
  }

  lemma ConcludedIsSame(w: Wire, s: State)
    requires w.Faithful() && Inv(w, s) && ClientMay(w, s, ReceiveEnds)
    ensures var t := Concluded(w, s);
      && t.client.Idle? && (t.current.None? || t.current == s.current)
      && t.asked == s.asked && t.log == s.log && t.conns == s.conns && CurrentInv(w, t)
  {
    if Concluded(w, s).current.Some? { ConcludedKeeps(w, s); }
  }

  lemma FailHolds(w: Wire, s: State, unknown: bool)
    requires Inv(w, s) && Busy(s) && !s.client.Idle? && (unknown <==> s.client.Receiving?)
    ensures var t := GiveUp(s, unknown); Holds(w, t, t.outcomes[|s.outcomes|])
  {
    hide FrameMessage, ReadFrame, Truthful, LogInv, NeverRan;
    var k := Now(s);
    var t := GiveUp(s, unknown);
    assert LeftBehind(w, t, s.current.value, k.last, unknown);
    if !unknown {
      forall c | 0 <= c < |t.conns| && t.conns[c].last == k.last ensures CutShort(w, t, c) {
        assert c == s.current.value;
      }
    }
  }

  lemma ConcludedHolds(w: Wire, s: State)
    requires w.Faithful() && Inv(w, s) && ClientMay(w, s, ReceiveEnds)
    ensures var t := Concluded(w, s); |t.outcomes| == |s.outcomes| + 1 && Holds(w, t, t.outcomes[|s.outcomes|])
    ensures Concluded(w, s).outcomes[..|s.outcomes|] == s.outcomes
  {
    hide FrameMessage, ReadFrame, Truthful, LogInv, NeverRan, Wire.Faithful;
    var t := Concluded(w, s);
    if t.current.Some? {
      ConcludedKeeps(w, s);
    } else {
      FailHolds(w, s, true);
    }
  }

  lemma ClientStepKeepsInv(w: Wire, s: State, step: Step)
    requires w.Faithful() && Inv(w, s) && ClientMay(w, s, step)
    ensures Inv(w, ClientNext(w, s, step))
  {
    if step.Ask? {
      AskKeepsInv(w, s, step.body);
    } else {
      hide Holds, ConnInv, ClientHas, LogInv, Wire.Faithful, Concluded;
      var t := ClientNext(w, s, step);
      ClientConnKeeps(w, s, step);
      if step.ReceiveEnds? { ConcludedHolds(w, s); }
      if step.SendFails? { FailHolds(w, s, false); }
      if step.ReceiveFails? { FailHolds(w, s, true); }
      if step.ConnectFails? { NotConnectedHolds(w, t); }
      OutcomesGrow(w, s, step);
      forall i | 0 <= i < |s.outcomes| ensures Holds(w, t, t.outcomes[i]) { SameHolds(w, s, t, s.outcomes[i]); }
      NewConnsAreFresh(s, t);
    }
  }

  lemma NotConnectedHolds(w: Wire, t: State)
    ensures Holds(w, t, NotConnected)
  {
  }

  lemma NewConnsAreFresh(s: State, t: State)
    requires Same(s, t)
    requires forall c, d :: 0 <= c < d < |s.conns| && s.conns[c].last == s.conns[d].last ==> s.conns[c].last == 0
    ensures forall c, d :: 0 <= c < d < |t.conns| && t.conns[c].last == t.conns[d].last ==> t.conns[c].last == 0
  {
  }

  /** What the client was told is never taken back. */
  lemma OutcomesGrow(w: Wire, s: State, step: Step)
    requires ClientMay(w, s, step)
    ensures var t := ClientNext(w, s, step);
      && |s.outcomes| <= |t.outcomes| <= |s.outcomes| + 1 && t.outcomes[..|s.outcomes|] == s.outcomes
      && (|t.outcomes| > |s.outcomes| ==>
            step.ReceiveEnds? || step.SendFails? || step.ReceiveFails? || step.ConnectFails?)
  {
    hide ReadFrame, FrameMessage;
  }

  // ----- Every run -----

  lemma {:induction false} RunKeepsInv(w: Wire, s: State, steps: seq<Step>)
    requires w.Faithful() && Inv(w, s) && Allowed(w, s, steps)
    ensures Inv(w, After(w, s, steps))
    decreases |steps|
  {
    hide Inv, Wire.Faithful, Next, May;
    if steps != [] {
      StepKeepsInv(w, s, steps[0]);
      RunKeepsInv(w, Next(w, s, steps[0]), steps[1..]);
    }
  }

  lemma StepKeepsInv(w: Wire, s: State, step: Step)
    requires w.Faithful() && Inv(w, s) && May(w, s, step)
    ensures Inv(w, Next(w, s, step))
  {
    hide Inv, Wire.Faithful, ClientMay, ServerMay;
    if OfServer(step) { ServerStepKeepsInv(w, s, step); } else { ClientStepKeepsInv(w, s, step); }
  }

  /** A failure that says its outcome is not unknown is a request the handler never ran. That holds at
      the end of any run after it, so the handler never runs it later either. */
  lemma KnownFailureNeverRan(w: Wire, steps: seq<Step>, i: nat)
    requires w.Faithful() && Allowed(w, START, steps)
    requires var t := After(w, START, steps); i < |t.outcomes| && t.outcomes[i].Failed? && !t.outcomes[i].outcomeUnknown
    ensures var t := After(w, START, steps); NeverRan(t.log, t.outcomes[i].id)
  {
    hide After, Allowed, ConnInv, ClientHas, Wire.Faithful;
    StartInv(w);
    RunKeepsInv(w, START, steps);
    assert Holds(w, After(w, START, steps), After(w, START, steps).outcomes[i]);
  }

  /** A returned verdict is what the handler made of that very request, which it ran exactly once; the
      only other verdict is the server's own, that no handler is registered, for a request never run. */
  lemma ReturnedIsWhatTheHandlerSaid(w: Wire, steps: seq<Step>, i: nat)
    requires w.Faithful() && Allowed(w, START, steps)
    requires var t := After(w, START, steps); i < |t.outcomes| && t.outcomes[i].Returned?
    ensures var t := After(w, START, steps);
      var o := t.outcomes[i];
      && 0 < o.id <= |t.asked|
      && ((o.verdict == NO_HANDLER && NeverRan(t.log, o.id))
          || exists k: nat :: RunsOnly(t.log, o.id, k) && t.log[k].request == RequestOf(t.asked, o.id)
                              && VerdictOf(t.log[k].handled) == o.verdict)
  {
    hide After, Allowed, ConnInv, ClientHas, Wire.Faithful;
    StartInv(w);
    RunKeepsInv(w, START, steps);
    assert Holds(w, After(w, START, steps), After(w, START, steps).outcomes[i]);
  }

  /** Whatever the outcome, no request is ever run twice, and none that was not asked in these words. */
  lemma EachRequestRunsAtMostOnce(w: Wire, steps: seq<Step>)
    requires w.Faithful() && Allowed(w, START, steps)
    ensures var t := After(w, START, steps); LogInv(t.asked, t.log)
  {
    hide After, Allowed, ConnInv, ClientHas, Wire.Faithful, LogInv, Holds;
    StartInv(w);
    RunKeepsInv(w, START, steps);
  }

  /** A server that is reading stands exactly where the current request's frame, or the next one,
      begins: what it has read and what is on its way are together the beginning of one frame. */
  lemma StreamStaysAligned(w: Wire, steps: seq<Step>, c: nat)
    requires w.Faithful() && Allowed(w, START, steps)
    requires c < |After(w, START, steps).conns| && After(w, START, steps).conns[c].server.Reading?
    ensures var t := After(w, START, steps);
      var k := t.conns[c];
      && k.last <= |t.asked|
      && (k.answered || 0 < k.last <= |t.asked|)
      && if k.answered then k.server.got == [] && k.up == []
         else k.offset <= |FrameOf(w, t.asked, k.last)| && k.server.got + k.up == FrameOf(w, t.asked, k.last)[..k.offset]
  {
    hide After, Allowed, ClientHas, Wire.Faithful, LogInv, Holds, FrameOf, Truthful;
    StartInv(w);
    RunKeepsInv(w, START, steps);
    assert ConnInv(w, After(w, START, steps).asked, After(w, START, steps).log, After(w, START, steps).conns[c]);
  }

  /** A failure says that its outcome is unknown exactly when the request's frame was written to its end. */
  lemma UnknownExactlyWhenWritten(w: Wire, steps: seq<Step>, i: nat)
    requires w.Faithful() && Allowed(w, START, steps)
    requires i < |After(w, START, steps).outcomes| && After(w, START, steps).outcomes[i].Failed?
    ensures var t, o := After(w, START, steps), After(w, START, steps).outcomes[i];
      && 0 < o.id <= |t.asked|
      && (exists c :: 0 <= c < |t.conns| && t.conns[c].last == o.id)
      && forall c :: 0 <= c < |t.conns| && t.conns[c].last == o.id ==>
           (o.outcomeUnknown <==> t.conns[c].offset == |FrameOf(w, t.asked, o.id)|)
  {
    hide After, Allowed, ConnInv, ClientHas, Wire.Faithful, FrameOf, LogInv, Truthful, NeverRan;
    StartInv(w);
    RunKeepsInv(w, START, steps);
    assert Holds(w, After(w, START, steps), After(w, START, steps).outcomes[i]);
  }

  // ----- Answers that arrive -----

  /** Once a client holds the whole response to its request, it can do nothing but hand on what it says, and
      keeps its connection. What the response says is the verdict of the handler's one run of that request, or
      that no handler is registered. */
  lemma WholeAnswerIsReturned(w: Wire, steps: seq<Step>, verdict: Verdict, step: Step)
    requires w.Faithful() && Allowed(w, START, steps)
    requires var s := After(w, START, steps);
      && Busy(s) && s.client == Receiving(FrameMessage(w.response(Response(Some(Now(s).last), verdict))))
      && 0 < |w.response(Response(Some(Now(s).last), verdict))| <= Limit(w, s)
      && May(w, s, step) && !OfServer(step)
    ensures var s, t := After(w, START, steps), Next(w, After(w, START, steps), step);
      && step == ReceiveEnds
      && t == s.(client := Idle, outcomes := s.outcomes + [Returned(Now(s).last, verdict)])
      && Truthful(t.asked, t.log, Now(s).last, verdict)
  {
    hide *;
    var s := After(w, START, steps);
    StartInv(w);
    RunKeepsInv(w, START, steps);
    var payload := w.response(Response(Some(LastOf(s)), verdict));
    IsWholeFrame(w, s, payload);
    OnlyReceiveEnds(w, s, step);
    ParsesResponse(w, Response(Some(LastOf(s)), verdict));
    HandsOn(w, s, verdict);
    StepKeepsInv(w, s, step);
    LastHolds(w, Next(w, s, step));
  }

  function LastOf(s: State): nat
    requires Busy(s)
    ensures LastOf(s) == Now(s).last
  {
    Now(s).last
  }

  lemma IsWholeFrame(w: Wire, s: State, payload: Bytes)
    requires Busy(s) && s.client == Receiving(FrameMessage(payload)) && 0 < |payload| <= Limit(w, s)
    ensures Wanted(s.client.got) == 0 && ReadFrame(s.client.got, Limit(w, s)) == Completed(payload, [])
  {
    WholeFrame(payload);
    ReadsFrameBack(payload, [], Limit(w, s));
    assert FrameMessage(payload) + [] == FrameMessage(payload);
  }

  lemma OnlyReceiveEnds(w: Wire, s: State, step: Step)
    requires Busy(s) && s.client.Receiving? && Wanted(s.client.got) == 0 && ReadFrame(s.client.got, Limit(w, s)).Completed?
    requires May(w, s, step) && !OfServer(step)
    ensures step == ReceiveEnds
  {
    hide Wanted, ReadFrame, Limit;
  }

  lemma HandsOn(w: Wire, s: State, verdict: Verdict)
    requires Busy(s) && s.client.Receiving? && ReadFrame(s.client.got, Limit(w, s)).Completed?
    requires w.parseResponse(ReadFrame(s.client.got, Limit(w, s)).payload) == Some(Response(Some(Now(s).last), verdict))
    ensures May(w, s, ReceiveEnds)
    ensures Next(w, s, ReceiveEnds) == s.(client := Idle, outcomes := s.outcomes + [Returned(Now(s).last, verdict)])
  {
    hide ReadFrame, Limit;
  }

  lemma ParsesResponse(w: Wire, r: Response)
    requires w.Faithful()
    ensures w.parseResponse(w.response(r)) == Some(r)
  {
  }

  lemma LastHolds(w: Wire, t: State)
    requires Inv(w, t) && t.outcomes != [] && t.outcomes[|t.outcomes| - 1].Returned?
    ensures var o := t.outcomes[|t.outcomes| - 1]; 0 < o.id <= |t.asked| && Truthful(t.asked, t.log, o.id, o.verdict)
  {
    hide ConnInv, ClientHas, LogInv, Truthful;
    assert Holds(w, t, t.outcomes[|t.outcomes| - 1]);
  }

  // ----- Runs that exist -----

  lemma One(w: Wire, s: State, step: Step)
    requires May(w, s, step)
    ensures Allowed(w, s, [step]) && After(w, s, [step]) == Next(w, s, step)
  {
    hide May, Next;
    assert [step][1..] == [];
  }

  lemma {:induction false} Follow(w: Wire, s: State, first: seq<Step>, second: seq<Step>)
    requires Allowed(w, s, first) && Allowed(w, After(w, s, first), second)
    ensures Allowed(w, s, first + second) && After(w, s, first + second) == After(w, After(w, s, first), second)
    decreases |first|
  {
    hide May, Next;
    if first == [] {
      assert first + second == second;
    } else {
      assert (first + second)[1..] == first[1..] + second;
      Follow(w, Next(w, s, first[0]), first[1..], second);
    }
  }

  lemma Then(w: Wire, s: State, first: seq<Step>, step: Step)
    requires Allowed(w, s, first) && May(w, After(w, s, first), step)
    ensures Allowed(w, s, first + [step]) && After(w, s, first + [step]) == Next(w, After(w, s, first), step)
  {
    hide *;
    One(w, After(w, s, first), step);
    Follow(w, s, first, [step]);
  }

  /** The state `s` with one more request, on a connection of its own. */
  function On(s: State, body: string, client: Client, k: Conn, runs: seq<HandlerRun>): State {
    s.(client := client, current := Some(|s.conns|), asked := s.asked + [body], conns := s.conns + [k], log := s.log + runs)
  }

  lemma ServerMoves(w: Wire, s: State, body: string, client: Client, k: Conn, runs: seq<HandlerRun>, step: Step)
    requires OfServer(step) && step.c == |s.conns| && ServerMay(k, step) && Fits(w, k, step)
    ensures var here := On(s, body, client, k, runs);
      && May(w, here, step)
      && Next(w, here, step) == On(s, body, client, ServerNext(w, k, step), runs + RunsOf(w, k, step))
  {
    hide ServerMay, ServerNext, Fits, AnswerTo;
    var here := On(s, body, client, k, runs);
    assert here.conns[step.c] == k;
    assert s.log + runs + RunsOf(w, k, step) == s.log + (runs + RunsOf(w, k, step));
    assert runs + [] == runs;
  }

  /** The frame of the request that comes next. */
  function NextFrame(w: Wire, s: State, body: string): Bytes {
    FrameMessage(w.request(Request(|s.asked| + 1, body)))
  }

  /** Its connection once that frame is written. */
  function Written(w: Wire, s: State, body: string): Conn {
    var frame := NextFrame(w, s, body);
    NEW_CONN.(up := frame, last := |s.asked| + 1, offset := |frame|, answered := false)
  }

  /** A client at rest goes to a new connection and writes a request to its end. */
  lemma WritesRequest(w: Wire, s: State, body: string) returns (steps: seq<Step>)
    requires s.client.Idle?
    ensures Allowed(w, s, steps) && After(w, s, steps) == On(s, body, Receiving([]), Written(w, s, body), [])
  {
    var s0 := s.(current := None);
    if s.current.Some? { One(w, s, Drop); }
    steps := if s.current.Some? then [Drop] else [];
    assert After(w, s, steps) == s0;
    var s1 := s0.(current := Some(|s.conns|), conns := s.conns + [NEW_CONN]);
    Then(w, s, steps, Connect);
    AsksOn(w, s, s1, body);
    Then(w, s, steps + [Connect], Ask(body));
    steps := steps + [Connect] + [Ask(body)];
    var k := NEW_CONN.(last := |s.asked| + 1, offset := 0, answered := false);
    SendsWhole(w, s, body, k);
    Then(w, s, steps, Send(|NextFrame(w, s, body)|));
    steps := steps + [Send(|NextFrame(w, s, body)|)];
  }

  lemma AsksOn(w: Wire, s: State, s1: State, body: string)
    requires s.client.Idle? && s1 == s.(current := Some(|s.conns|), conns := s.conns + [NEW_CONN])
    ensures May(w, s1, Ask(body))
    ensures Next(w, s1, Ask(body)) == On(s, body, Sending, NEW_CONN.(last := |s.asked| + 1, offset := 0, answered := false), [])
  {
    assert s.log + [] == s.log;
  }

  lemma SendsWhole(w: Wire, s: State, body: string, k: Conn)
    requires k == NEW_CONN.(last := |s.asked| + 1, offset := 0, answered := false)
    ensures var n := |NextFrame(w, s, body)|;
      && May(w, On(s, body, Sending, k, []), Send(n))
      && Next(w, On(s, body, Sending, k, []), Send(n)) == On(s, body, Receiving([]), Written(w, s, body), [])
  {
    var here := On(s, body, Sending, k, []);
    var frame := NextFrame(w, s, body);
    hide FrameMessage;
    FrameIsNotEmpty(w, here.asked, |here.asked|);
    NamesFrame(w, here.asked, |here.asked|);
    assert [] + frame[0..|frame|] == frame;
    assert Now(here) == k;
  }

  lemma NamesFrame(w: Wire, asked: seq<string>, id: nat)
    requires 0 < id <= |asked|
    ensures FrameOf(w, asked, id) == FrameMessage(w.request(Request(id, asked[id - 1])))
  {
  }

  lemma WholeFrame(payload: Bytes)
    requires 0 < |payload| <= MAXIMUM_FRAME
    ensures var frame := FrameMessage(payload);
      && |frame| == PREFIX + |payload| && Wanted([]) == PREFIX && Wanted(frame[..PREFIX]) == |payload|
      && ReadFrame(frame, MAXIMUM_FRAME) == Completed(payload, [])
  {
    assert Carried(payload) == payload;
    LengthRoundTrip(|payload|);
    assert FrameMessage(payload)[..PREFIX] == Prefix(|payload|);
    ReadsFrameBack(payload, [], MAXIMUM_FRAME);
    assert FrameMessage(payload) + [] == FrameMessage(payload);
  }

  /** What the server has to say when `handled` is what the handler does, None for no handler. */
  function VerdictFor(handled: Option<Handled>): Verdict {
    if handled.None? then NO_HANDLER else VerdictOf(handled.value)
  }

  /** The runs that adds to the log. */
  function RunFor(id: nat, body: string, handled: Option<Handled>): seq<HandlerRun> {
    if handled.None? then [] else [HandlerRun(Request(id, body), handled.value)]
  }

  /** The connection once the server has the answer. */
  function AnsweredConn(w: Wire, s: State, body: string, handled: Option<Handled>): Conn {
    Written(w, s, body).(up := [], server := Replying(0), answered := true,
                         reply := Response(Some(|s.asked| + 1), VerdictFor(handled)))
  }

  /** The server reads the request whole and has it handled. */
  lemma AnswersRequest(w: Wire, s: State, body: string, handled: Option<Handled>) returns (steps: seq<Step>)
    requires w.Faithful() && 0 < |w.request(Request(|s.asked| + 1, body))| <= MAXIMUM_FRAME
    ensures var here := On(s, body, Receiving([]), Written(w, s, body), []);
      && Allowed(w, here, steps)
      && After(w, here, steps)
         == On(s, body, Receiving([]), AnsweredConn(w, s, body, handled), RunFor(|s.asked| + 1, body, handled))
  {
    hide Allowed, After, FrameMessage, ReadFrame, Wanted, May, Next, Wire.Faithful, On;
    ghost var none: seq<HandlerRun> := [];
    assert none + none == none && none + RunFor(|s.asked| + 1, body, handled) == RunFor(|s.asked| + 1, body, handled);
    var c := |s.conns|;
    var payload := w.request(Request(|s.asked| + 1, body));
    var frame := FrameMessage(payload);
    WholeFrame(payload);
    var n := |frame| - PREFIX;
    var k0 := Written(w, s, body);
    assert [] + frame[..PREFIX] == frame[..PREFIX];
    ServerMoves(w, s, body, Receiving([]), k0, [], ServerReads(c, PREFIX));
    var k1 := k0.(up := frame[PREFIX..], server := Reading(frame[..PREFIX]));
    assert frame[..PREFIX] + frame[PREFIX..][..n] == frame && frame[PREFIX..][n..] == [];
    ServerMoves(w, s, body, Receiving([]), k1, [], ServerReads(c, n));
    var k2 := k0.(up := [], server := Reading(frame));
    ServerMoves(w, s, body, Receiving([]), k2, [], ServerHasFrame(c));
    var k3 := k0.(up := [], server := Ready(payload));
    ParsesWhole(w, Request(|s.asked| + 1, body));
    ServerMoves(w, s, body, Receiving([]), k3, [], ServerAnswers(c, handled));
    var here := On(s, body, Receiving([]), k0, []);
    One(w, here, ServerReads(c, PREFIX));
    Then(w, here, [ServerReads(c, PREFIX)], ServerReads(c, n));
    steps := [ServerReads(c, PREFIX)] + [ServerReads(c, n)];
    Then(w, here, steps, ServerHasFrame(c));
    steps := steps + [ServerHasFrame(c)];
    Then(w, here, steps, ServerAnswers(c, handled));
    steps := steps + [ServerAnswers(c, handled)];
  }

  lemma ParsesWhole(w: Wire, r: Request)
    requires w.Faithful()
    ensures w.parseRequest(w.request(r)) == Some(r)
  {
  }

  lemma ClientReceives(w: Wire, s: State, body: string, got: Bytes, k: Conn, runs: seq<HandlerRun>, n: nat)
    requires k.last == |s.asked| + 1 && 0 < n <= |k.down| && n <= Wanted(got)
    ensures var here := On(s, body, Receiving(got), k, runs);
      && May(w, here, Receive(n))
      && Next(w, here, Receive(n)) == On(s, body, Receiving(got + k.down[..n]), k.(down := k.down[n..]), runs)
  {
    hide Wanted;
    assert Now(On(s, body, Receiving(got), k, runs)) == k;
  }

  /** The response goes out whole and comes in whole. */
  lemma DeliversAnswer(w: Wire, s: State, body: string, k: Conn, runs: seq<HandlerRun>) returns (steps: seq<Step>)
    requires k.last == |s.asked| + 1 && k.server == Replying(0) && k.down == []
    requires 0 < |w.response(k.reply)| <= MAXIMUM_FRAME
    ensures var here := On(s, body, Receiving([]), k, runs);
      && Allowed(w, here, steps)
      && After(w, here, steps) == On(s, body, Receiving(FrameMessage(w.response(k.reply))), k.(server := Reading([])), runs)
  {
    hide Allowed, After, FrameMessage, Wanted, ReadFrame, May, Next, On;
    var c := |s.conns|;
    var frame := FrameMessage(w.response(k.reply));
    WholeFrame(w.response(k.reply));
    assert ReplyFrame(w, k) == frame;
    assert [] + frame[0..|frame|] == frame && runs + [] == runs;
    ServerMoves(w, s, body, Receiving([]), k, runs, ServerReplies(c, |frame|));
    var k1 := k.(down := frame, server := Reading([]));
    ClientReceives(w, s, body, [], k1, runs, PREFIX);
    assert [] + frame[..PREFIX] == frame[..PREFIX];
    var k2 := k1.(down := frame[PREFIX..]);
    var n := |frame| - PREFIX;
    ClientReceives(w, s, body, frame[..PREFIX], k2, runs, n);
    assert frame[..PREFIX] + frame[PREFIX..][..n] == frame && frame[PREFIX..][n..] == [];
    var here := On(s, body, Receiving([]), k, runs);
    One(w, here, ServerReplies(c, |frame|));
    Then(w, here, [ServerReplies(c, |frame|)], Receive(PREFIX));
    Then(w, here, [ServerReplies(c, |frame|)] + [Receive(PREFIX)], Receive(n));
    steps := [ServerReplies(c, |frame|)] + [Receive(PREFIX)] + [Receive(n)];
  }

  /** From every state a run can reach with the client at rest, whatever the next request and whatever the
      handler makes of it, a run can go on in which the handler runs it and the client hands that on. */
  lemma AnswersCanComeBack(w: Wire, before: seq<Step>, body: string, handled: Option<Handled>) returns (more: seq<Step>)
    requires w.Faithful() && Allowed(w, START, before) && After(w, START, before).client.Idle?
    requires var id := |After(w, START, before).asked| + 1;
      && 0 < |w.request(Request(id, body))| <= MAXIMUM_FRAME
      && 0 < |w.response(Response(Some(id), VerdictFor(handled)))|
           <= (if w.handshake(body) then HANDSHAKE_LIMIT else MAXIMUM_FRAME)
    ensures var s := After(w, START, before);
      && Allowed(w, s, more)
      && var t := After(w, s, more);
         && t.asked == s.asked + [body]
         && t.log == s.log + RunFor(|s.asked| + 1, body, handled)
         && t.outcomes == s.outcomes + [Returned(|s.asked| + 1, VerdictFor(handled))]
  {
    hide Allowed, After, FrameMessage, Wanted, ReadFrame, May, Next, Wire.Faithful, Written, Limit;
    var s := After(w, START, before);
    var id := |s.asked| + 1;
    var runs := RunFor(id, body, handled);
    var writing := WritesRequest(w, s, body);
    var answering := AnswersRequest(w, s, body, handled);
    var k := AnsweredConn(w, s, body, handled);
    IsNewConn(w, s, body);
    var delivering := DeliversAnswer(w, s, body, k, runs);
    var here := On(s, body, Receiving(FrameMessage(w.response(k.reply))), k.(server := Reading([])), runs);
    LimitOn(w, s, body, here);
    IsWholeFrame(w, here, w.response(k.reply));
    ParsesResponse(w, k.reply);
    HandsOn(w, here, VerdictFor(handled));
    Follow(w, s, writing, answering);
    Follow(w, s, writing + answering, delivering);
    Then(w, s, writing + answering + delivering, ReceiveEnds);
    more := writing + answering + delivering + [ReceiveEnds];
  }

  lemma IsNewConn(w: Wire, s: State, body: string)
    ensures Written(w, s, body).down == [] && Written(w, s, body).last == |s.asked| + 1
  {
  }

  lemma LimitOn(w: Wire, s: State, body: string, here: State)
    requires |here.conns| == |s.conns| + 1 && here.current == Some(|s.conns|) && here.asked == s.asked + [body]
    requires here.conns[|s.conns|].last == |s.asked| + 1
    ensures Busy(here) && Now(here).last == |s.asked| + 1
    ensures Limit(w, here) == if w.handshake(body) then HANDSHAKE_LIMIT else MAXIMUM_FRAME
  {
  }

  lemma LastFails(w: Wire, s: State)
    requires Busy(s) && s.client == Receiving([])
    ensures May(w, s, ReceiveFails) && Next(w, s, ReceiveFails) == GiveUp(s, true)
  {
    EmptyIsShort();
  }

  /** An unknown outcome is unknown: from every state a run can reach with the client at rest, and for every
      request that fits a frame, there are two ways on in which the client is told exactly the same, and the
      handler ran it in one and not in the other. */
  lemma UnknownMeansUnknown(w: Wire, before: seq<Step>, body: string) returns (without: seq<Step>, with: seq<Step>)
    requires w.Faithful() && Allowed(w, START, before) && After(w, START, before).client.Idle?
    requires 0 < |w.request(Request(|After(w, START, before).asked| + 1, body))| <= MAXIMUM_FRAME
    ensures var s := After(w, START, before);
      && Allowed(w, s, without) && Allowed(w, s, with)
      && After(w, s, without).outcomes == After(w, s, with).outcomes == s.outcomes + [Failed(|s.asked| + 1, true)]
      && NeverRan(After(w, s, without).log, |s.asked| + 1)
      && RunsOnly(After(w, s, with).log, |s.asked| + 1, |s.log|)
  {
    hide Allowed, After, FrameMessage, May, Next, Wire.Faithful, Written, ConnInv, ClientHas, Holds;
    var s := After(w, START, before);
    StartInv(w);
    RunKeepsInv(w, START, before);
    LogOfMore(s.asked, body, s.log);
    var writing := WritesRequest(w, s, body);
    IsNewConn(w, s, body);
    LastFails(w, On(s, body, Receiving([]), Written(w, s, body), []));
    Then(w, s, writing, ReceiveFails);
    without := writing + [ReceiveFails];
    var answering := AnswersRequest(w, s, body, Some(Threw));
    Follow(w, s, writing, answering);
    LastFails(w, On(s, body, Receiving([]), AnsweredConn(w, s, body, Some(Threw)), RunFor(|s.asked| + 1, body, Some(Threw))));
    Then(w, s, writing + answering, ReceiveFails);
    with := writing + answering + [ReceiveFails];
  }
}
