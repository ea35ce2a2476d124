/**
 The client's end of the agent RPC pipe and the server's loop on the other side.

 One connection carries one request at a time and the client takes whatever reply comes
 next, without looking at its id. The model lets sends and receives fail at any point, the
 server take, answer or abandon requests at any point, and new connections be refused; the
 theorem is that a reply never reaches another request's caller.
 */
module AgentPipe {
  import opened Core

  datatype Body = Result(value: string) | RpcError(message: string)

  datatype Request = Request(id: int, operation: string)

  /** `Refusal` is the busy frame a refused connection is sent: an error with a null id. */
  datatype Response = Reply(id: int, body: Body) | Refusal

  /** One connection: bytes not yet read by either side, and what the server is working on. */
  datatype Conn = Conn(inbox: seq<Request>, handling: Option<Request>, outbox: seq<Response>, serving: bool)

  const ACCEPTED := Conn([], None, [], true)
  const REFUSED := Conn([], None, [Refusal], false)

  datatype Phase = Idle | Ready | Waiting(request: Request)

  /** What the server was asked to do under an id, and its reply. */
  datatype Answered = Answered(operation: string, body: Body)

  /**
   `asked`, `answered` and `returned` record history: the operation each caller passed, what the server
   did and replied under each id, and what each call got.
   */
  datatype Pipe = Pipe(
    conn: Option<Conn>,
    nextId: int,
    phase: Phase,
    asked: map<int, string>,
    answered: map<int, Answered>,
    returned: map<int, Response>
  )

  const START := Pipe(None, 0, Idle, map[], map[], map[])

  datatype Dial = Accept | Refuse | Unreachable

  datatype Sending = Unmarshalable | Sent | Broken

  datatype Event =
    | Connect(dial: Dial)
    | Send(operation: string, io: Sending)
    | Receive(ok: bool)
    | Close
    | Take
    | Answer(body: Body)
    | Abandon

  // ------------------------------------------------------- the client's steps

  /** ensureConn. */
  function EnsureConn(conn: Option<Conn>, dial: Dial): Option<Conn> {
    if conn.Some? then conn
    else
      match dial
      case Accept => Some(ACCEPTED)
      case Refuse => Some(REFUSED)
      case Unreachable => None
  }

  /** Bytes written to a connection the server no longer serves are lost. */
  function Deliver(c: Conn, q: Request): Conn {
    if c.serving then c.(inbox := c.inbox + [q]) else c
  }

  function DoConnect(p: Pipe, dial: Dial): Pipe {
    if p.phase != Idle then p
    else
      var conn := EnsureConn(p.conn, dial);
      p.(conn := conn, phase := if conn.Some? then Ready else Idle)
  }

  function DoSend(p: Pipe, operation: string, io: Sending): Pipe {
    if p.phase != Ready || p.conn.None? then p
    else if io.Unmarshalable? then p.(phase := Idle)
    else
      var q := Request(p.nextId + 1, operation);
      var sent := p.(nextId := q.id);
      if io.Sent? then sent.(conn := Some(Deliver(p.conn.value, q)), phase := Waiting(q))
      else sent.(conn := None, phase := Idle)
  }

  /** A receive that times out, is cancelled or hits the end of the stream drops the connection. */
  function DoReceive(p: Pipe, ok: bool): Pipe {
    if !p.phase.Waiting? || p.conn.None? then p
    else if !ok then p.(conn := None, phase := Idle)
    else if p.conn.value.outbox == [] then p
    else
      var c := p.conn.value;
      p.(conn := Some(c.(outbox := c.outbox[1..])),
         phase := Idle,
         returned := p.returned[p.phase.request.id := c.outbox[0]])
  }

  // ------------------------------------------------------- the server's steps

  /** handleConn reads the next request only after it has answered the one before. */
  function ServerTake(c: Conn): Conn {
    if !c.serving || c.handling.Some? || c.inbox == [] then c
    else c.(handling := Some(c.inbox[0]), inbox := c.inbox[1..])
  }

  function ServerAnswer(c: Conn, body: Body): Conn {
    if !c.serving || c.handling.None? then c
    else c.(handling := None, outbox := c.outbox + [Reply(c.handling.value.id, body)])
  }

  /** The peer is gone, the frame is bad or the agent died: no more is read or written. */
  function ServerAbandon(c: Conn): Conn {
    c.(inbox := [], handling := None, serving := false)
  }

  function Step(p: Pipe, e: Event): Pipe {
    match e
    case Connect(dial) => DoConnect(p, dial)
    case Send(operation, io) =>
      var sent := DoSend(p, operation, io);
      if sent.nextId == p.nextId then sent else sent.(asked := p.asked[sent.nextId := operation])
    case Receive(ok) => DoReceive(p, ok)
    case Close => if p.phase == Idle then p.(conn := None) else p
    case Take => if p.conn.Some? then p.(conn := Some(ServerTake(p.conn.value))) else p
    case Answer(body) =>
      if p.conn.None? || !p.conn.value.serving || p.conn.value.handling.None? then p
      else
        var q := p.conn.value.handling.value;
        p.(conn := Some(ServerAnswer(p.conn.value, body)), answered := p.answered[q.id := Answered(q.operation, body)])
    case Abandon => if p.conn.Some? then p.(conn := Some(ServerAbandon(p.conn.value))) else p
  }

  function Run(p: Pipe, es: seq<Event>): Pipe {
    if es == [] then p else Step(Run(p, es[..|es| - 1]), es[|es| - 1])
  }

  // ------------------------------------------------------- what holds throughout

  /** Nothing is under way, and the only thing left to read is a refusal. */
  predicate Quiet(c: Conn) {
    && c.inbox == [] && c.handling.None?
    && (c.outbox == [] || (c.outbox == [Refusal] && !c.serving))
  }

  /** Exactly request `q` is under way: queued, being handled, answered, or lost with the connection. */
  predicate Carries(c: Conn, q: Request, answered: map<int, Answered>) {
    || (c.inbox == [q] && c.handling.None? && c.outbox == [] && q.id !in answered)
    || (c.inbox == [] && c.handling == Some(q) && c.outbox == [] && q.id !in answered)
    || (c.inbox == [] && c.handling.None? && q.id in answered && c.outbox == [Reply(q.id, answered[q.id].body)])
    || (!c.serving && Quiet(c))
  }

  ghost predicate Inv(p: Pipe) {
    && (forall id :: id in p.asked ==> id <= p.nextId)
    && (forall id :: id in p.answered ==> id in p.asked && p.answered[id].operation == p.asked[id])
    && (forall id :: id in p.returned ==> id <= p.nextId)
    && (forall id :: id in p.returned ==> RightReply(p, id))
    && (match p.phase
        case Idle => p.conn.Some? ==> Quiet(p.conn.value)
        case Ready => p.conn.Some? && Quiet(p.conn.value)
        case Waiting(q) =>
          && p.conn.Some? && q.id == p.nextId && q.id !in p.returned && Carries(p.conn.value, q, p.answered)
          && q.id in p.asked && p.asked[q.id] == q.operation)
  }

  /** What call `id` got is a refusal or the server's reply to request `id`. */
  predicate RightReply(p: Pipe, id: int)
    requires id in p.returned
  {
    p.returned[id].Refusal? || (id in p.answered && p.returned[id] == Reply(id, p.answered[id].body))
  }

  /** What history says stays said. */
  ghost predicate Remembers(p: Pipe, p': Pipe) {
    && (forall id :: id in p.asked ==> id in p'.asked && p'.asked[id] == p.asked[id])
    && (forall id :: id in p.answered ==> id in p'.answered && p'.answered[id] == p.answered[id])
    && (forall id :: id in p.returned ==> id in p'.returned && p'.returned[id] == p.returned[id])
  }

  lemma ClientStepKeeps(p: Pipe, e: Event)
    requires Inv(p) && (e.Connect? || e.Receive? || e.Close?)
    ensures Inv(Step(p, e)) && Remembers(p, Step(p, e))
  {
  }

  lemma SendKeeps(p: Pipe, e: Event)
    requires Inv(p) && e.Send?
    ensures Inv(Step(p, e)) && Remembers(p, Step(p, e))
  {
    var p' := Step(p, e);
    assert p'.answered == p.answered && p'.returned == p.returned;
    if p'.nextId != p.nextId {
      assert p'.nextId == p.nextId + 1 && p'.asked == p.asked[p'.nextId := e.operation];
      assert p'.nextId !in p.asked;
    }
  }

  lemma ServerStepKeeps(p: Pipe, e: Event)
    requires Inv(p) && (e.Take? || e.Answer? || e.Abandon?)
    ensures Inv(Step(p, e)) && Remembers(p, Step(p, e))
  {
    if e.Answer? && Step(p, e) != p {
      assert p.phase.Waiting? && p.conn.value.handling == Some(p.phase.request);
    }
  }

  lemma StepKeeps(p: Pipe, e: Event)
    requires Inv(p)
    ensures Inv(Step(p, e)) && Remembers(p, Step(p, e))
    ensures e.Close? && p.phase == Idle ==> Step(p, e).conn.None?
  {
    match e
    case Send(_, _) => SendKeeps(p, e);
    case Connect(_) => ClientStepKeeps(p, e);
    case Receive(_) => ClientStepKeeps(p, e);
    case Close => ClientStepKeeps(p, e);
    case _ => ServerStepKeeps(p, e);
  }

  /**
   In every run, a call that returned a result got the server's reply to that very request, whose
   operation is the one the caller passed, and neither the reply nor what the caller got ever
   changes. Between calls the connection is nil or holds at most the refusal of a connection the
   server has already closed.
   */
  lemma {:induction false} EveryCallGetsItsOwnReply(es: seq<Event>, k: nat)
    requires k <= |es|
    ensures
      var p, q := Run(START, es[..k]), Run(START, es);
      && Inv(q)
      && Remembers(p, q)
      && (forall id :: id in q.returned && q.returned[id].Reply? ==>
            && q.returned[id].id == id && id in q.answered && q.returned[id].body == q.answered[id].body
            && id in q.asked && q.answered[id].operation == q.asked[id])
      && (q.phase == Idle && q.conn.Some? ==> forall i :: 0 <= i < |q.conn.value.outbox| ==> q.conn.value.outbox[i].Refusal?)
  {
    if es == [] || k == |es| {
      assert es[..k] == es;
      AllRunsKeep(es);
    } else {
      var front := es[..|es| - 1];
      EveryCallGetsItsOwnReply(front, k);
      assert front[..k] == es[..k];
      StepKeeps(Run(START, front), es[|es| - 1]);
    }
  }

  lemma {:induction false} AllRunsKeep(es: seq<Event>)
    ensures Inv(Run(START, es))
  {
    if es != [] {
      AllRunsKeep(es[..|es| - 1]);
      StepKeeps(Run(START, es[..|es| - 1]), es[|es| - 1]);
    }
  }

  // ------------------------------------------------------- the client object

  /** A connection as the client holds it; `written` is every request put on it. */
  class Wire {
    var state: Conn
    var written: seq<Request>

    constructor (state: Conn)
      ensures this.state == state && written == []
    {
      this.state := state;
      written := [];
    }

    method Write(q: Request)
      modifies this
      ensures state == Deliver(old(state), q) && written == old(written) + [q]
    {
      state := Deliver(state, q);
      written := written + [q];
    }
  }

  /** What the server does to a connection while a call is in flight. */
  datatype ServerAct = DoTake | DoAnswer(body: Body) | DoAbandon

  function Served(c: Conn, acts: seq<ServerAct>): Conn {
    if acts == [] then c
    else
      var b := Served(c, acts[..|acts| - 1]);
      match acts[|acts| - 1]
      case DoTake => ServerTake(b)
      case DoAnswer(body) => ServerAnswer(b, body)
      case DoAbandon => ServerAbandon(b)
  }

  /** A request alone on a connection can be answered only by a reply with its own id. */
  lemma {:induction false} ServedCarries(c: Conn, q: Request, acts: seq<ServerAct>)
    requires c == Deliver(c.(inbox := []), q) && Quiet(c.(inbox := []))
    ensures
      var d := Served(c, acts);
      || (d.inbox == [q] && d.handling.None? && d.outbox == [])
      || (d.inbox == [] && d.handling == Some(q) && d.outbox == [])
      || (d.inbox == [] && d.handling.None? &&
          exists k :: 0 <= k < |acts| && acts[k].DoAnswer? && d.outbox == [Reply(q.id, acts[k].body)])
      || (!d.serving && Quiet(d))
  {
    if acts != [] {
      var front := acts[..|acts| - 1];
      ServedCarries(c, q, front);
      assert forall k :: 0 <= k < |front| ==> front[k] == acts[k];
    }
  }

  /** The server takes the request at `i`, the first thing it can do, and answers it at `j`. */
  predicate AnswersAt(acts: seq<ServerAct>, i: nat, j: nat) {
    && i < j < |acts| && acts[i].DoTake? && acts[j].DoAnswer?
    && (forall k :: 0 <= k < i ==> acts[k].DoAnswer?)
    && (forall k :: i < k < j ==> acts[k].DoTake?)
  }

  /** How far the server has come with a lone request. */
  datatype Progress = Queued | Handled(from: nat) | Replied(from: nat, at: nat) | Lost(when: nat)

  ghost predicate ProgressOf(acts: seq<ServerAct>, g: Progress) {
    match g
    case Queued => forall k :: 0 <= k < |acts| ==> acts[k].DoAnswer?
    case Handled(i) =>
      && i < |acts| && acts[i].DoTake?
      && (forall k :: 0 <= k < i ==> acts[k].DoAnswer?) && (forall k :: i < k < |acts| ==> acts[k].DoTake?)
    case Replied(i, j) => AnswersAt(acts, i, j)
    case Lost(k) => k < |acts| && acts[k].DoAbandon? && forall i: nat, j: nat :: !AnswersAt(acts, i, j)
  }

  predicate Shows(d: Conn, q: Request, acts: seq<ServerAct>, g: Progress) {
    match g
    case Queued => d.serving && d.inbox == [q] && d.handling.None? && d.outbox == []
    case Handled(_) => d.serving && d.inbox == [] && d.handling == Some(q) && d.outbox == []
    case Replied(_, j) =>
      j < |acts| && acts[j].DoAnswer? && d.inbox == [] && d.handling.None? && d.outbox == [Reply(q.id, acts[j].body)]
    case Lost(_) => !d.serving && d.inbox == [] && d.handling.None? && d.outbox == []
  }

  lemma AnswersOnce(acts: seq<ServerAct>, i: nat, j: nat, i': nat, j': nat)
    requires AnswersAt(acts, i, j) && AnswersAt(acts, i', j')
    ensures i == i' && j == j'
  {
  }

  lemma AnswersLater(front: seq<ServerAct>, a: ServerAct, i: nat, j: nat)
    ensures AnswersAt(front, i, j) ==> AnswersAt(front + [a], i, j)
    ensures AnswersAt(front + [a], i, j) && j < |front| ==> AnswersAt(front, i, j)
  {
    var acts := front + [a];
    assert forall k :: 0 <= k < |front| ==> acts[k] == front[k];
  }

  /** One more act of the server on a request that has come as far as `g`. */
  function Further(n: nat, a: ServerAct, g: Progress): Progress {
    match g
    case Queued => if a.DoTake? then Handled(n) else if a.DoAnswer? then Queued else Lost(n)
    case Handled(i) => if a.DoAnswer? then Replied(i, n) else if a.DoTake? then g else Lost(n)
    case _ => g
  }

  lemma FurtherIsProgress(front: seq<ServerAct>, a: ServerAct, g: Progress)
    requires ProgressOf(front, g)
    ensures ProgressOf(front + [a], Further(|front|, a, g))
  {
    var acts, n := front + [a], |front|;
    assert forall k :: 0 <= k < n ==> acts[k] == front[k];
    if Further(n, a, g).Lost? {
      forall i: nat, j: nat ensures !AnswersAt(acts, i, j) {
        AnswersLater(front, a, i, j);
        assert acts[Further(n, a, g).when].DoAbandon?;
      }
    }
  }

  /** How a lone request on a served connection ends, from what the server does alone. */
  lemma {:induction false} ServedProgress(c: Conn, q: Request, acts: seq<ServerAct>) returns (g: Progress)
    requires c.serving && c.inbox == [q] && c.handling.None? && c.outbox == []
    ensures ProgressOf(acts, g) && Shows(Served(c, acts), q, acts, g)
  {
    if acts == [] {
      g := Queued;
    } else {
      var front, a := acts[..|acts| - 1], acts[|acts| - 1];
      var before := ServedProgress(c, q, front);
      g := Further(|front|, a, before);
      FurtherIsProgress(front, a, before);
      assert acts == front + [a];
    }
  }

  /**
   A request alone on a served connection finds a reply waiting exactly when the server takes it and
   then answers it before giving up the connection; the reply is that answer, under the request's id.
   */
  lemma ReplyWaitsExactlyWhen(c: Conn, q: Request, acts: seq<ServerAct>)
    requires c.serving && c.inbox == [] && c.handling.None? && c.outbox == []
    ensures var out := Served(Deliver(c, q), acts).outbox;
            && (out != [] <==> exists i: nat, j: nat :: AnswersAt(acts, i, j))
            && (forall i: nat, j: nat :: AnswersAt(acts, i, j) ==> out == [Reply(q.id, acts[j].body)])
  {
    var g := ServedProgress(Deliver(c, q), q, acts);
    forall i: nat, j: nat | AnswersAt(acts, i, j) ensures g == Replied(i, j) {
      if g.Replied? {
        AnswersOnce(acts, i, j, g.from, g.at);
      }
    }
  }

  class Client {
    var conn: Wire?
    var nextID: int

    constructor ()
      ensures conn == null && nextID == 0
    {
      conn, nextID := null, 0;
    }

    ghost function Abs(): Option<Conn>
      reads this, conn
    {
      if conn == null then None else Some(conn.state)
    }

    /** Between calls: no connection, or one with nothing of an earlier call on it. */
    ghost predicate Valid()
      reads this, conn
    {
      conn != null ==> Quiet(conn.state)
    }

    method Ensure(dial: Dial) returns (ok: bool)
      modifies this`conn
      ensures Abs() == EnsureConn(old(Abs()), dial) && ok == (conn != null)
      ensures old(conn) != null ==> conn == old(conn)
      ensures old(conn) == null && conn != null ==> fresh(conn)
      ensures old(conn) == null ==> (conn == null <==> dial.Unreachable?)
      ensures old(conn) == null && dial.Accept? ==> conn.state == Conn([], None, [], true)
      ensures old(conn) == null && dial.Refuse? ==> conn.state == Conn([], None, [Refusal], false)
    {
      if conn != null {
        return true;
      }
      match dial {
        case Unreachable => return false;
        case Accept => conn := new Wire(ACCEPTED);
        case Refuse => conn := new Wire(REFUSED);
      }
      ok := true;
    }

    method CloseConn()
      modifies this`conn
      ensures conn == null
    {
      conn := null;
    }

    /** The client between calls is in the state of the pipe. */
    ghost predicate At(p: Pipe)
      reads this, conn
    {
      p.phase == Idle && Abs() == p.conn && nextID == p.nextId
    }

    /** roundTrip: writes the request, and takes the first frame the server has left by then. */
    method RoundTrip(q: Request, server: seq<ServerAct>, receives: bool) returns (r: Option<Response>)
      requires conn != null
      modifies this`conn, conn
      ensures var d := Served(Deliver(old(conn.state), q), server);
              && r == (if receives && d.outbox != [] then Some(d.outbox[0]) else None)
              && (r.Some? ==> conn == old(conn) && conn.state == d.(outbox := d.outbox[1..]))
      ensures r.Some? ==> conn.written == old(conn.written) + [q]
      ensures r.None? ==> conn == null
    {
      conn.Write(q);
      conn.state := Served(conn.state, server);
      if !receives || conn.state.outbox == [] {
        CloseConn();
        return None;
      }
      r := Some(conn.state.outbox[0]);
      conn.state := conn.state.(outbox := conn.state.outbox[1..]);
    }

    /**
     Call. `server` is what the server does between the send and the receive; `receives` is false
     when the receive times out or is cancelled. `es` are the pipe's steps the call took.
     */
    method Call(cancelled: bool, dial: Dial, operation: string, io: Sending, server: seq<ServerAct>, receives: bool,
                ghost p: Pipe)
      returns (r: Option<Response>, ghost es: seq<Event>)
      requires Valid() && At(p)
      modifies this, conn
      ensures Valid() && At(Run(p, es))
      ensures r == CallResult(cancelled, EnsureConn(old(Abs()), dial), old(nextID), operation, io, server, receives)
      ensures nextID == old(nextID) +
                        if cancelled || (old(conn) == null && dial.Unreachable?) || io.Unmarshalable? then 0 else 1
      ensures nextID != old(nextID) ==> nextID in Run(p, es).asked && Run(p, es).asked[nextID] == operation
      ensures r.Some? ==> conn != null && conn.written != []
                          && conn.written[|conn.written| - 1] == Request(old(nextID) + 1, operation)
      ensures r.Some? ==> nextID in Run(p, es).returned && Run(p, es).returned[nextID] == r.value
      ensures r.Some? && r.value.Reply? ==>
                r.value.id == nextID && exists k :: 0 <= k < |server| && server[k] == DoAnswer(r.value.body)
      ensures cancelled ==> r.None? && Abs() == old(Abs())
      ensures !cancelled && io.Unmarshalable? ==> r.None? && Abs() == EnsureConn(old(Abs()), dial)
      ensures io.Broken? && nextID != old(nextID) ==> r.None? && conn == null
      ensures !receives && nextID != old(nextID) ==> r.None? && conn == null
    {
      es := [];
      if cancelled {
        return None, es;
      }
      var ok := Ensure(dial);
      EarlyEnd(p, dial, operation, io);
      es := [Connect(dial)];
      if !ok {
        return None, es;
      }
      es := [Connect(dial)] + [Send(operation, io)];
      if io.Unmarshalable? {
        return None, es;
      }
      nextID := nextID + 1;
      if io.Broken? {
        CloseConn();
        return None, es;
      }
      var q := Request(nextID, operation);
      ghost var c := conn.state;
      r := RoundTrip(q, server, receives);
      CallIsARun(p, dial, operation, server, receives);
      AfterCall(c, q, server);
      es := CallEvents(dial, operation, server, r.Some?);
    }
  }

  /** A frame that waits after a call on a quiet connection is its own reply or a refusal, and leaves the connection quiet. */
  lemma AfterCall(c: Conn, q: Request, server: seq<ServerAct>)
    requires Quiet(c)
    ensures var d := Served(Deliver(c, q), server);
            d.outbox != [] ==>
              && Quiet(d.(outbox := d.outbox[1..]))
              && (d.outbox[0].Reply? ==>
                    d.outbox[0].id == q.id && exists k :: 0 <= k < |server| && server[k] == DoAnswer(d.outbox[0].body))
  {
    ServedCarries(Deliver(c, q), q, server);
    var d := Served(Deliver(c, q), server);
    if d.outbox != [] && d.outbox[0].Reply? {
      var k :| 0 <= k < |server| && server[k].DoAnswer? && d.outbox == [Reply(q.id, server[k].body)];
      assert server[k] == DoAnswer(d.outbox[0].body);
    }
  }

  /** The steps of a call that is sent. */
  function CallEvents(dial: Dial, operation: string, server: seq<ServerAct>, got: bool): seq<Event> {
    [Connect(dial)] + [Send(operation, Sent)] + Acts(server) + [Receive(got)]
  }

  /** A call that ends before anything is sent, or in the send. */
  lemma EarlyEnd(p: Pipe, dial: Dial, operation: string, io: Sending)
    ensures Run(p, [Connect(dial)]) == DoConnect(p, dial)
    ensures Run(p, [Connect(dial)] + [Send(operation, io)]) == Step(DoConnect(p, dial), Send(operation, io))
  {
    assert Run(p, []) == p;
    RunMore(p, [], Connect(dial));
    assert [] + [Connect(dial)] == [Connect(dial)];
    RunMore(p, [Connect(dial)], Send(operation, io));
  }

  /** A call that is sent, as a run of the pipe. */
  lemma CallIsARun(p: Pipe, dial: Dial, operation: string, server: seq<ServerAct>, receives: bool)
    requires p.phase == Idle && EnsureConn(p.conn, dial).Some?
    ensures
      var q := Request(p.nextId + 1, operation);
      var d := Served(Deliver(EnsureConn(p.conn, dial).value, q), server);
      var got := receives && d.outbox != [];
      var end := Run(p, CallEvents(dial, operation, server, got));
      && end.phase == Idle && end.nextId == q.id
      && end.conn == (if got then Some(d.(outbox := d.outbox[1..])) else None)
      && q.id in end.asked && end.asked[q.id] == operation
      && (got ==> q.id in end.returned && end.returned[q.id] == d.outbox[0])
  {
    var q := Request(p.nextId + 1, operation);
    var d := Served(Deliver(EnsureConn(p.conn, dial).value, q), server);
    var got := receives && d.outbox != [];
    var start := [Connect(dial)] + [Send(operation, Sent)];
    AfterSend(p, dial, operation);
    ServedIsARun(Run(p, start), server);
    RunThrough(p, start, Acts(server));
    RunMore(p, start + Acts(server), Receive(got));
    AfterReceive(Run(p, start + Acts(server)), q, d, got);
  }

  lemma AfterSend(p: Pipe, dial: Dial, operation: string)
    requires p.phase == Idle && EnsureConn(p.conn, dial).Some?
    ensures
      var q := Request(p.nextId + 1, operation);
      var sent := Run(p, [Connect(dial)] + [Send(operation, Sent)]);
      && sent.conn == Some(Deliver(EnsureConn(p.conn, dial).value, q)) && sent.phase == Waiting(q)
      && sent.nextId == q.id && q.id in sent.asked && sent.asked[q.id] == operation
  {
    EarlyEnd(p, dial, operation, Sent);
  }

  lemma AfterReceive(p: Pipe, q: Request, d: Conn, got: bool)
    requires p.phase == Waiting(q) && p.conn == Some(d) && (got ==> d.outbox != [])
    ensures
      var end := Step(p, Receive(got));
      && end.phase == Idle && end.nextId == p.nextId && end.asked == p.asked
      && end.conn == (if got then Some(d.(outbox := d.outbox[1..])) else None)
      && (got ==> q.id in end.returned && end.returned[q.id] == d.outbox[0])
  {
  }

  /** What a call returns: the first frame that waits for it once the server has worked on its request. */
  function CallResult(cancelled: bool, conn: Option<Conn>, lastId: int, operation: string, io: Sending,
                      server: seq<ServerAct>, receives: bool): Option<Response>
  {
    if cancelled || conn.None? || !io.Sent? || !receives then None
    else
      var out := Served(Deliver(conn.value, Request(lastId + 1, operation)), server).outbox;
      if out == [] then None else Some(out[0])
  }

  /**
   On a connection with nothing on it a call returns a reply exactly when it is not cancelled, is sent and
   received, and the server takes the request and answers it; it is then the answer the server gave.
   */
  lemma CallReturnsExactlyWhen(cancelled: bool, c: Conn, lastId: int, operation: string, io: Sending,
                               server: seq<ServerAct>, receives: bool)
    requires c.serving && Quiet(c)
    ensures var r := CallResult(cancelled, Some(c), lastId, operation, io, server, receives);
            && (r.Some? <==> !cancelled && io.Sent? && receives && exists i: nat, j: nat :: AnswersAt(server, i, j))
            && (forall i: nat, j: nat :: r.Some? && AnswersAt(server, i, j) ==> r == Some(Reply(lastId + 1, server[j].body)))
  {
    ReplyWaitsExactlyWhen(c, Request(lastId + 1, operation), server);
  }

  function Acts(server: seq<ServerAct>): seq<Event> {
    if server == [] then []
    else
      Acts(server[..|server| - 1]) +
      [match server[|server| - 1]
       case DoTake => Take
       case DoAnswer(body) => Answer(body)
       case DoAbandon => Abandon]
  }

  lemma RunMore(p: Pipe, es: seq<Event>, e: Event)
    ensures Run(p, es + [e]) == Step(Run(p, es), e)
  {
    assert (es + [e])[..|es|] == es;
  }

  lemma {:induction false} RunThrough(p: Pipe, es: seq<Event>, fs: seq<Event>)
    ensures Run(p, es + fs) == Run(Run(p, es), fs)
  {
    if fs == [] {
      assert es + fs == es;
    } else {
      RunThrough(p, es, fs[..|fs| - 1]);
      assert (es + fs)[..|es + fs| - 1] == es + fs[..|fs| - 1];
    }
  }

  /** What the server does to the connection is a run of the pipe that leaves the client waiting. */
  lemma {:induction false} ServedIsARun(p: Pipe, server: seq<ServerAct>)
    requires p.conn.Some?
    ensures
      var q := Run(p, Acts(server));
      && q.conn == Some(Served(p.conn.value, server))
      && q.phase == p.phase && q.nextId == p.nextId && q.returned == p.returned && q.asked == p.asked
  {
    if server != [] {
      var front := server[..|server| - 1];
      ServedIsARun(p, front);
      var acts := Acts(server);
      assert acts[..|acts| - 1] == Acts(front);
    }
  }
}
