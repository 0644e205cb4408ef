/** One socket as a state machine over its strand. Every handler is one atomic
    step; the callers, the network and the order of completions are arbitrary
    events. A successful send may move fewer bytes than it was given, although
    the completion handler marks the whole buffer as read: `lost` counts the
    difference. */
module SocketModel {
  import opened Wrappers
  import opened Wire

  /** The receive buffer is allocated once and never grown. */
  const RECV_CAPACITY := 65536

  /** Work posted to the strand. DoClose is only ever posted by the socket itself. */
  datatype Task = Write(m: Message) | Close | DoClose

  datatype ReadResult = Bytes(chunk: seq<byte>) | ReadFailed | ReadAborted
  datatype SendResult = Sent(n: nat) | SendFailed | SendAborted

  /** The sending half: the two buffers by role, whether a send has been started
      (`writing`) and not yet completed (`pending`), and what reached the network. */
  datatype Tx = Tx(
    idle: seq<byte>,
    flight: seq<byte>,
    writing: bool,
    pending: bool,
    wire: seq<byte>,
    lost: nat,
    accepted: seq<Packet>)

  /** The receiving half. */
  datatype Rx = Rx(unread: seq<byte>, counter: nat, pending: bool, delivered: seq<Message>)

  datatype Sock = Sock(
    tx: Tx,
    rx: Rx,
    open: bool,
    closing: bool,
    notify: bool,
    // calls of the passive-close callback
    passive: nat,
    // the strand's FIFO
    tasks: seq<Task>,
    // messages posted before the first close was posted
    posted: seq<Message>,
    closePosted: bool)

  /** A connected socket as it is made. */
  function Made(counter: nat): Sock {
    Sock(Tx([], [], false, false, [], 0, []), Rx([], counter, false, []), true, false, true, 0, [], [], false)
  }

  /** A read is started. */
  function StartRead(s: Sock): Sock {
    s.(rx := s.rx.(pending := true))
  }

  /** A connected socket whose first read has been started. */
  function Fresh(counter: nat): Sock {
    StartRead(Made(counter))
  }

  // ---------- the handlers ----------

  function Shut(s: Sock): Sock {
    if s.open then s.(open := false, passive := s.passive + if s.notify then 1 else 0)
    else s
  }

  /** Starts a send of the idle buffer, swapping the buffers, unless one is
      under way or there is nothing to send. */
  function Launch(t: Tx): Tx {
    if t.writing || t.idle == [] then t
    else t.(writing := true, flight := t.idle, idle := t.flight, pending := true)
  }

  /** A packet appended to the idle buffer. */
  function Push(t: Tx, p: Packet): Tx
    requires Sendable(p)
  {
    t.(idle := t.idle + Encode(p), accepted := t.accepted + [p])
  }

  /** A completed send that moved n bytes. */
  function Land(t: Tx, n: nat): Tx
    requires n <= |t.flight|
  {
    t.(flight := [], writing := false, pending := false,
       wire := t.wire + t.flight[..n], lost := t.lost + |t.flight| - n)
  }

  function StartWrite(s: Sock): Sock {
    if !s.tx.writing && s.tx.idle == [] && s.closing then s.(tasks := s.tasks + [DoClose])
    else s.(tx := Launch(s.tx))
  }

  function OnWrite(s: Sock, m: Message): Sock {
    if s.closing || |m.body| > BODY_MAX then s
    else StartWrite(s.(tx := Push(s.tx, PacketOf(m, s.rx.counter))))
  }

  function OnClose(s: Sock): Sock {
    if s.tx.writing then s.(closing := true)
    else Shut(s.(closing := true, notify := false))
  }

  function OnDoClose(s: Sock): Sock {
    Shut(s.(notify := false))
  }

  function Receive(rx: Rx, chunk: seq<byte>): Rx {
    var q := Parse(rx.counter, rx.unread + chunk);
    Rx(q.rest, q.counter, q.ok, rx.delivered + q.msgs)
  }

  function OnRead(s: Sock, r: ReadResult): Sock {
    var s0 := s.(rx := s.rx.(pending := false));
    if s.closing then s0
    else
      match r
      case ReadAborted => s0
      case ReadFailed => Shut(s0)
      case Bytes(chunk) =>
        var s1 := s.(rx := Receive(s.rx, chunk));
        if s1.rx.pending then s1 else Shut(s1)
  }

  function OnSent(s: Sock, r: SendResult): Sock
    requires r.Sent? ==> r.n <= |s.tx.flight|
  {
    match r
    case SendAborted => s.(tx := s.tx.(pending := false))
    case SendFailed => Shut(s.(tx := s.tx.(pending := false)))
    case Sent(n) => StartWrite(s.(tx := Land(s.tx, n)))
  }

  // ---------- events and runs ----------

  datatype Event = Post(t: Task) | RunTask | ReadDone(r: ReadResult) | SendDone(sr: SendResult)

  predicate Enabled(s: Sock, e: Event) {
    match e
    case Post(t) => !t.DoClose?
    case RunTask => s.tasks != []
    case ReadDone(r) => s.rx.pending && (r.Bytes? ==> |r.chunk| <= RECV_CAPACITY - |s.rx.unread|)
    case SendDone(r) => s.tx.pending && (r.Sent? ==> r.n <= |s.tx.flight|)
  }

  function Enqueue(s: Sock, t: Task): Sock {
    var s' := s.(tasks := s.tasks + [t]);
    match t
    case Write(m) => if s.closePosted then s' else s'.(posted := s.posted + [m])
    case _ => s'.(closePosted := true)
  }

  function Exec(s: Sock, t: Task): Sock {
    match t
    case Write(m) => OnWrite(s, m)
    case Close => OnClose(s)
    case DoClose => OnDoClose(s)
  }

  /** A disabled event leaves the state alone, so every event row is a run. */
  function Step(s: Sock, e: Event): Sock {
    if !Enabled(s, e) then s
    else
      match e
      case Post(t) => Enqueue(s, t)
      case RunTask => Exec(s.(tasks := s.tasks[1..]), s.tasks[0])
      case ReadDone(r) => OnRead(s, r)
      case SendDone(r) => OnSent(s, r)
  }

  function Run(s: Sock, es: seq<Event>): Sock
    decreases |es|
  {
    if es == [] then s else Run(Step(s, es[0]), es[1..])
  }

  // ---------- what holds in every run ----------

  function Fitting(ms: seq<Message>): seq<Message> {
    if ms == [] then []
    else Fitting(ms[..|ms| - 1]) + if |ms[|ms| - 1].body| <= BODY_MAX then [ms[|ms| - 1]] else []
  }

  /** The writes queued ahead of the first queued close. */
  function Ahead(ts: seq<Task>): seq<Message> {
    if ts == [] || !ts[0].Write? then [] else [ts[0].m] + Ahead(ts[1..])
  }

  ghost predicate Ledger(t: Tx) {
    && (forall p <- t.accepted :: Sendable(p))
    && |t.wire| + t.lost + |t.flight| + |t.idle| == |EncodeAll(t.accepted)|
    && (t.lost == 0 ==> t.wire + t.flight + t.idle == EncodeAll(t.accepted))
  }

  /** Between handlers: nothing is buffered unless a send is under way. */
  ghost predicate Settled(t: Tx) {
    && (!t.writing ==> t.idle == [] && t.flight == [])
    && (t.pending ==> t.writing)
  }

  ghost predicate Window(rx: Rx) {
    rx.pending ==> |rx.unread| < PACKET_MAX
  }

  /** Accepted messages plus those still queued ahead of a close are the fitting
      messages among those posted before the first close, in order. */
  ghost predicate InOrder(s: Sock) {
    if s.closing then MessagesOf(s.tx.accepted) == Fitting(s.posted) && s.closePosted
    else
      && MessagesOf(s.tx.accepted) + Fitting(Ahead(s.tasks)) == Fitting(s.posted)
      && DoClose !in s.tasks
      && (s.closePosted <==> Close in s.tasks)
  }

  ghost predicate Inv(s: Sock) {
    Ledger(s.tx) && Settled(s.tx) && Window(s.rx) && InOrder(s)
  }

  lemma {:induction false} FittingAppend(a: seq<Message>, b: seq<Message>)
    ensures Fitting(a + b) == Fitting(a) + Fitting(b)
  {
    if b == [] {
      assert a + b == a;
    } else {
      var n := |b| - 1;
      assert (a + b)[..|a + b| - 1] == a + b[..n];
      assert (a + b)[|a + b| - 1] == b[n];
      FittingAppend(a, b[..n]);
    }
  }

  lemma FittingOne(m: Message)
    ensures Fitting([m]) == if |m.body| <= BODY_MAX then [m] else []
  {
    assert [m][..0] == [];
  }

  lemma {:induction false} AheadSnoc(ts: seq<Task>, t: Task)
    ensures Ahead(ts + [t])
         == if (forall u <- ts :: u.Write?) && t.Write? then Ahead(ts) + [t.m] else Ahead(ts)
  {
    if ts == [] {
      assert ([] + [t])[1..] == [];
    } else if ts[0].Write? {
      assert (ts + [t])[1..] == ts[1..] + [t];
      AheadSnoc(ts[1..], t);
      assert (forall u <- ts :: u.Write?) <==> (forall u <- ts[1..] :: u.Write?);
    }
  }

  lemma LaunchKeeps(t: Tx)
    requires Ledger(t) && (!t.writing ==> t.flight == [] && !t.pending) && (t.pending ==> t.writing)
    ensures Ledger(Launch(t)) && Settled(Launch(t))
  {
    if !t.writing && t.idle != [] {
      assert t.wire + t.idle + t.flight == t.wire + t.flight + t.idle;
    }
  }

  lemma PushKeeps(t: Tx, p: Packet)
    requires Ledger(t) && Sendable(p)
    ensures Ledger(Push(t, p))
  {
    EncodeAllSnoc(t.accepted, p);
    assert t.wire + t.flight + (t.idle + Encode(p)) == (t.wire + t.flight + t.idle) + Encode(p);
  }

  lemma LandKeeps(t: Tx, n: nat)
    requires Ledger(t) && n <= |t.flight|
    ensures Ledger(Land(t, n))
  {
    if t.lost + |t.flight| - n == 0 {
      assert t.flight[..n] == t.flight;
      assert (t.wire + t.flight) + [] + t.idle == t.wire + t.flight + t.idle;
    }
  }

  lemma ReadLeavesTx(s: Sock, r: ReadResult)
    ensures OnRead(s, r).tx == s.tx
  {
  }

  /** How one event can change the sending half. */
  lemma TxStep(s: Sock, e: Event)
    ensures var t := Step(s, e).tx;
            || t == s.tx
            || t == s.tx.(pending := false)
            || (e.RunTask? && s.tasks != [] && s.tasks[0].Write? && |s.tasks[0].m.body| <= BODY_MAX && !s.closing
                && t == Launch(Push(s.tx, PacketOf(s.tasks[0].m, s.rx.counter))))
            || (e.SendDone? && s.tx.pending && e.sr.Sent? && e.sr.n <= |s.tx.flight|
                && t == Launch(Land(s.tx, e.sr.n)))
  {
    match e
    case Post(t) =>
    case RunTask =>
    case ReadDone(r) => ReadLeavesTx(s, r);
    case SendDone(r) =>
  }

  lemma LedgerStep(s: Sock, e: Event)
    requires Ledger(s.tx) && Settled(s.tx)
    ensures Ledger(Step(s, e).tx) && Settled(Step(s, e).tx)
  {
    TxStep(s, e);
    var t := Step(s, e).tx;
    if t == s.tx || t == s.tx.(pending := false) {
    } else if e.RunTask? {
      var p := PacketOf(s.tasks[0].m, s.rx.counter);
      PushKeeps(s.tx, p);
      LaunchKeeps(Push(s.tx, p));
    } else {
      LandKeeps(s.tx, e.sr.n);
      LaunchKeeps(Land(s.tx, e.sr.n));
    }
  }

  lemma ReceiveWindowKeeps(rx: Rx, chunk: seq<byte>)
    ensures Window(Receive(rx, chunk))
  {
    if Parse(rx.counter, rx.unread + chunk).ok { LeftoverBound(rx.counter, rx.unread + chunk); }
  }

  /** Only a read completion changes the receiving half. */
  lemma RxStep(s: Sock, e: Event)
    ensures var x := Step(s, e).rx;
            || x == s.rx
            || x == s.rx.(pending := false)
            || (e.ReadDone? && e.r.Bytes? && s.rx.pending && !s.closing && x == Receive(s.rx, e.r.chunk))
  {
    match e
    case Post(t) =>
    case RunTask =>
    case ReadDone(r) =>
    case SendDone(r) =>
  }

  lemma WindowStep(s: Sock, e: Event)
    requires Window(s.rx)
    ensures Window(Step(s, e).rx)
  {
    RxStep(s, e);
    if e.ReadDone? && e.r.Bytes? { ReceiveWindowKeeps(s.rx, e.r.chunk); }
  }

  lemma OrderPost(s: Sock, t: Task)
    requires InOrder(s) && !t.DoClose?
    ensures InOrder(Enqueue(s, t))
  {
    if !s.closing {
      AheadSnoc(s.tasks, t);
      assert (forall u <- s.tasks :: u.Write?) <==> !s.closePosted by {
        if s.closePosted { assert Close in s.tasks; }
        forall u <- s.tasks | !s.closePosted ensures u.Write? { assert u != Close && u != DoClose; }
      }
      if t.Write? && !s.closePosted {
        FittingAppend(Ahead(s.tasks), [t.m]);
        FittingAppend(s.posted, [t.m]);
        var a, b, c := MessagesOf(s.tx.accepted), Fitting(Ahead(s.tasks)), Fitting([t.m]);
        assert a + (b + c) == (a + b) + c;
      }
    }
  }

  /** Taking a write off the queue moves its message from the waiting ones to
      the accepted ones, or drops it if it is too long. */
  lemma OrderTake(a: seq<Message>, m: Message, rest: seq<Task>)
    ensures a + Fitting(Ahead([Write(m)] + rest))
         == (if |m.body| <= BODY_MAX then a + [m] else a) + Fitting(Ahead(rest))
  {
    assert ([Write(m)] + rest)[1..] == rest;
    FittingAppend([m], Ahead(rest));
    FittingOne(m);
    var b := Fitting(Ahead(rest));
    assert a + ([m] + b) == (a + [m]) + b;
    assert [] + b == b;
  }

  lemma OrderWrite(s: Sock, m: Message, rest: seq<Task>)
    requires InOrder(s) && s.tasks == [Write(m)] + rest
    ensures InOrder(OnWrite(s.(tasks := rest), m))
  {
    if !s.closing {
      OrderTake(MessagesOf(s.tx.accepted), m, rest);
      assert Close in s.tasks <==> Close in rest;
      if |m.body| <= BODY_MAX {
        var p := PacketOf(m, s.rx.counter);
        assert MessageOf(p) == m;
        assert MessagesOf(s.tx.accepted + [p]) == MessagesOf(s.tx.accepted) + [m];
      }
    }
  }

  lemma OrderClose(s: Sock, rest: seq<Task>)
    requires InOrder(s) && s.tasks == [Close] + rest
    ensures InOrder(OnClose(s.(tasks := rest)))
  {
    assert Ahead(s.tasks) == [];
    assert MessagesOf(s.tx.accepted) + [] == MessagesOf(s.tx.accepted);
  }

  /** Completions leave the order alone. */
  lemma OrderFrame(s: Sock, s': Sock)
    requires InOrder(s)
    requires s'.tx.accepted == s.tx.accepted && s'.closing == s.closing
    requires s'.posted == s.posted && s'.closePosted == s.closePosted
    requires s'.tasks == s.tasks || (s.closing && s'.tasks == s.tasks + [DoClose])
    ensures InOrder(s')
  {
  }

  lemma OrderStep(s: Sock, e: Event)
    requires InOrder(s)
    ensures InOrder(Step(s, e))
  {
    if Enabled(s, e) {
      match e
      case Post(t) => OrderPost(s, t);
      case RunTask =>
        var t, rest := s.tasks[0], s.tasks[1..];
        assert s.tasks == [t] + rest;
        match t {
          case Write(m) => OrderWrite(s, m, rest);
          case Close => OrderClose(s, rest);
          case DoClose => OrderFrame(s.(tasks := rest), OnDoClose(s.(tasks := rest)));
        }
      case ReadDone(r) => ReadLeavesTx(s, r); OrderFrame(s, OnRead(s, r));
      case SendDone(r) => OrderFrame(s, OnSent(s, r));
    }
  }

  lemma InvStep(s: Sock, e: Event)
    requires Inv(s)
    ensures Inv(Step(s, e))
  {
    LedgerStep(s, e);
    WindowStep(s, e);
    OrderStep(s, e);
  }

  lemma {:induction false} InvRun(s: Sock, es: seq<Event>)
    requires Inv(s)
    ensures Inv(Run(s, es))
    decreases |es|
  {
    if es == [] {
    } else {
      InvStep(s, es[0]);
      InvRun(Step(s, es[0]), es[1..]);
    }
  }

  lemma InvFresh(counter: nat)
    ensures Inv(Fresh(counter))
  {
    assert MessagesOf([]) == [];
  }

  // ---------- main results for every run, errors and partial sends included ----------

  /** Every send that completes successfully in the run has moved its whole buffer. */
  ghost predicate WholeSends(s: Sock, es: seq<Event>)
    decreases |es|
  {
    es == []
    || ((Enabled(s, es[0]) && es[0].SendDone? && es[0].sr.Sent? ==> es[0].sr.n == |s.tx.flight|)
        && WholeSends(Step(s, es[0]), es[1..]))
  }

  lemma LostStep(s: Sock, e: Event)
    ensures Step(s, e).tx.lost >= s.tx.lost
    ensures Step(s, e).tx.lost == s.tx.lost
       <==> (Enabled(s, e) && e.SendDone? && e.sr.Sent? ==> e.sr.n == |s.tx.flight|)
  {
    if e.ReadDone? { ReadLeavesTx(s, e.r); }
  }

  /** What the ghost count of lost bytes stands for. */
  lemma {:induction false} LostExactly(s: Sock, es: seq<Event>)
    ensures Run(s, es).tx.lost >= s.tx.lost
    ensures Run(s, es).tx.lost == s.tx.lost <==> WholeSends(s, es)
    decreases |es|
  {
    if es == [] {
    } else {
      LostStep(s, es[0]);
      LostExactly(Step(s, es[0]), es[1..]);
    }
  }

  /** Send ledger. Bytes on the wire, in flight and queued are the encoding of
      the accepted packets in order exactly when every successful send of the run
      moved its whole buffer; a socket that is not sending has nothing buffered;
      and the accepted messages are the fitting ones among those posted before
      close, in order, up to what still waits on the strand. */
  lemma SendLedger(counter: nat, es: seq<Event>)
    ensures var s := Run(Fresh(counter), es);
            && (forall p <- s.tx.accepted :: Sendable(p))
            && (s.tx.wire + s.tx.flight + s.tx.idle == EncodeAll(s.tx.accepted) <==> WholeSends(Fresh(counter), es))
            && (!s.tx.writing ==> s.tx.flight == [] && s.tx.idle == [])
            && MessagesOf(s.tx.accepted) + (if s.closing then [] else Fitting(Ahead(s.tasks))) == Fitting(s.posted)
  {
    InvFresh(counter);
    InvRun(Fresh(counter), es);
    LostExactly(Fresh(counter), es);
    var s := Run(Fresh(counter), es);
    assert MessagesOf(s.tx.accepted) + [] == MessagesOf(s.tx.accepted);
    assert |s.tx.wire + s.tx.flight + s.tx.idle| == |s.tx.wire| + |s.tx.flight| + |s.tx.idle|;
  }

  lemma RunOne(s: Sock, e: Event)
    ensures Run(s, [e]) == Step(s, e)
  {
    assert [e][1..] == [];
  }

  /** Sends complete in full; before the close handler, reads bring acceptable
      bytes (an aborted read is harmless). */
  ghost predicate Calm(s: Sock, e: Event) {
    match e
    case SendDone(r) => r == Sent(|s.tx.flight|)
    case ReadDone(r) => s.closing || r.ReadAborted? || (r.Bytes? && Parse(s.rx.counter, s.rx.unread + r.chunk).ok)
    case _ => true
  }

  ghost predicate CalmRun(s: Sock, es: seq<Event>)
    decreases |es|
  {
    es == [] || ((Enabled(s, es[0]) ==> Calm(s, es[0])) && CalmRun(Step(s, es[0]), es[1..]))
  }

  lemma {:induction false} RunAppend(s: Sock, a: seq<Event>, b: seq<Event>)
    ensures Run(s, a + b) == Run(Run(s, a), b)
    ensures CalmRun(s, a + b) <==> CalmRun(s, a) && CalmRun(Run(s, a), b)
    decreases |a|
  {
    if a == [] {
      assert a + b == b;
    } else {
      assert (a + b)[1..] == a[1..] + b;
      RunAppend(Step(s, a[0]), a[1..], b);
    }
  }

  lemma RunThree(s: Sock, a: Event, b: Event, c: Event)
    ensures Run(s, [a, b, c]) == Step(Step(Step(s, a), b), c)
  {
    RunAppend(s, [a], [b, c]);
    RunAppend(Step(s, a), [b], [c]);
    assert [a] + [b, c] == [a, b, c] && [b] + [c] == [b, c];
    RunOne(s, a);
    RunOne(Step(s, a), b);
    RunOne(Step(Step(s, a), b), c);
  }

  /** A run in which the ledger fails: one empty message is written, and its send
      completes successfully without having moved a byte. */
  lemma PartialSendLoses(counter: nat) returns (es: seq<Event>)
    ensures var s := Run(Fresh(counter), es);
            && (forall p <- s.tx.accepted :: Sendable(p))
            && |s.tx.accepted| == 1 && !s.tx.writing
            && s.tx.wire + s.tx.flight + s.tx.idle == [] != EncodeAll(s.tx.accepted)
  {
    var m := Message(0, [], false);
    var s0 := Fresh(counter);
    var s1 := Step(s0, Post(Write(m)));
    var s2 := Step(s1, RunTask);
    var s3 := Step(s2, SendDone(Sent(0)));
    es := [Post(Write(m)), RunTask, SendDone(Sent(0))];
    RunThree(s0, es[0], es[1], es[2]);
    assert Run(s0, es) == s3;
    assert s1.tasks == [Write(m)];
    assert s2.tx.flight == [] + Encode(PacketOf(m, counter));
    assert s3.tx.accepted == [PacketOf(m, counter)];
    EncodeAllSnoc([], PacketOf(m, counter));
    assert [] + [PacketOf(m, counter)] == [PacketOf(m, counter)];
  }

  /** The receive window never closes: whenever a read is outstanding, at most
      65534 bytes are unread, so at least two more fit. */
  lemma ReceiveWindow(counter: nat, es: seq<Event>)
    ensures var rx := Run(Fresh(counter), es).rx;
            rx.pending ==> |rx.unread| <= 65534 && 65536 - |rx.unread| >= 2
  {
    InvFresh(counter);
    InvRun(Fresh(counter), es);
  }

  lemma CounterStep(s: Sock, e: Event)
    requires 1 <= s.rx.counter <= 254
    ensures 1 <= Step(s, e).rx.counter <= 254
  {
    RxStep(s, e);
    if Enabled(s, e) && e.ReadDone? && e.r.Bytes? && !s.closing {
      var ps := StreamIndices(s.rx.counter, s.rx.unread + e.r.chunk);
    }
  }

  /** A socket that has started counting never leaves 1..254, in any run. */
  lemma {:induction false} CounterStays(s: Sock, es: seq<Event>)
    requires 1 <= s.rx.counter <= 254
    ensures 1 <= Run(s, es).rx.counter <= 254
    decreases |es|
  {
    if es == [] {
    } else {
      CounterStep(s, es[0]);
      CounterStays(Step(s, es[0]), es[1..]);
    }
  }

  /** The chunk an event hands to the parser, if it does. */
  function Chunk(s: Sock, e: Event): seq<seq<byte>> {
    if Enabled(s, e) && e.ReadDone? && e.r.Bytes? && !s.closing then [e.r.chunk] else []
  }

  function Chunks(s: Sock, es: seq<Event>): seq<seq<byte>>
    decreases |es|
  {
    if es == [] then [] else Chunk(s, es[0]) + Chunks(Step(s, es[0]), es[1..])
  }

  /** The receiving half is where feeding these chunks to the parser leads. */
  ghost predicate Fed(rx: Rx, counter: nat, chunks: seq<seq<byte>>) {
    var f := Feed(counter, chunks);
    rx.delivered == f.msgs && rx.counter == f.counter && (rx.pending ==> f.ok && rx.unread == f.rest)
  }

  lemma FedStep(s: Sock, e: Event, counter: nat, chunks: seq<seq<byte>>)
    requires Fed(s.rx, counter, chunks)
    ensures Fed(Step(s, e).rx, counter, chunks + Chunk(s, e))
  {
    RxStep(s, e);
    if Chunk(s, e) == [] {
      assert chunks + [] == chunks;
    } else {
      assert (chunks + [e.r.chunk])[..|chunks|] == chunks;
    }
  }

  lemma {:induction false} FedRun(s: Sock, es: seq<Event>, counter: nat, chunks: seq<seq<byte>>)
    requires Fed(s.rx, counter, chunks)
    ensures Fed(Run(s, es).rx, counter, chunks + Chunks(s, es))
    decreases |es|
  {
    if es == [] {
      assert chunks + [] == chunks;
    } else {
      FedStep(s, es[0], counter, chunks);
      FedRun(Step(s, es[0]), es[1..], counter, chunks + Chunk(s, es[0]));
      assert chunks + Chunk(s, es[0]) + Chunks(Step(s, es[0]), es[1..]) == chunks + Chunks(s, es);
    }
  }

  /** Everything a run has handed to the parser, in one piece. */
  function Received(counter: nat, es: seq<Event>): seq<byte> {
    Flatten(Chunks(Fresh(counter), es))
  }

  /** The receive side of every run, whatever it was sent and however it was cut:
      delivered messages and counter are those of one pass over all the bytes
      received, and while reads go on the bytes are acceptable and what is unread is
      what that pass leaves. */
  lemma ReceivesStream(counter: nat, es: seq<Event>)
    ensures var rx, q := Run(Fresh(counter), es).rx, Parse(counter, Received(counter, es));
            && rx.delivered == q.msgs && rx.counter == q.counter
            && (rx.pending ==> q.ok && rx.unread == q.rest)
  {
    var chunks := Chunks(Fresh(counter), es);
    FedRun(Fresh(counter), es, counter, []);
    assert [] + chunks == chunks;
    ChunkingInvariance(counter, chunks);
  }

  /** The k-th packet that a counting socket takes in a run carries the k-th index of
      the cycle: its deliveries are the messages of such packets, which are the front
      of the bytes received. */
  lemma RunIndices(counter: nat, es: seq<Event>) returns (ps: seq<Packet>)
    requires 1 <= counter <= 254
    ensures var rx := Run(Fresh(counter), es).rx;
            rx.delivered == MessagesOf(ps) && rx.counter == Cycle(counter, |ps|)
    ensures (forall p <- ps :: Sendable(p)) && EncodeAll(ps) <= Received(counter, es)
    ensures forall k :: 0 <= k < |ps| ==> ps[k].index == Cycle(counter, k)
  {
    ReceivesStream(counter, es);
    ps := StreamIndices(counter, Received(counter, es));
  }

  /** A socket that does not count yet: its packets carry zeros until the first one
      that does not, then the cycle that starts there; 255 is followed by nothing. */
  lemma RunFromZero(es: seq<Event>) returns (ps: seq<Packet>, zeros: nat)
    ensures var rx := Run(Fresh(0), es).rx;
            rx.delivered == MessagesOf(ps) && AdmitAll(0, IndicesOf(ps)) == Some(rx.counter)
    ensures (forall p <- ps :: Sendable(p)) && EncodeAll(ps) <= Received(0, es)
    ensures zeros <= |ps| && (forall k :: 0 <= k < zeros ==> ps[k].index == 0)
    ensures zeros < |ps| ==> ps[zeros].index > 0 && (ps[zeros].index == 255 ==> |ps| == zeros + 1)
    ensures zeros < |ps| && ps[zeros].index < 255 ==>
              forall k :: zeros <= k < |ps| ==> ps[k].index == Cycle(ps[zeros].index, k - zeros)
  {
    ReceivesStream(0, es);
    ps := ParseFrames(0, Received(0, es));
    zeros := ZerosFirst(IndicesOf(ps));
    forall k | 0 <= k < |ps| ensures ps[k].index == IndicesOf(ps)[k] {
    }
  }

  /** While a send is outstanding its buffer is neither extended nor replaced. */
  lemma FlightStable(s: Sock, e: Event)
    requires Settled(s.tx) && s.tx.pending && !e.SendDone?
    ensures Step(s, e).tx.flight == s.tx.flight
  {
    TxStep(s, e);
  }

  lemma ClosingStep(s: Sock, e: Event)
    requires s.closing
    ensures Step(s, e).closing && Step(s, e).tx.accepted == s.tx.accepted
    ensures Step(s, e).rx.delivered == s.rx.delivered && Step(s, e).rx.counter == s.rx.counter
  {
    TxStep(s, e);
    RxStep(s, e);
  }

  /** Once the close handler has run nothing more is accepted or delivered. */
  lemma {:induction false} ClosingRefuses(s: Sock, es: seq<Event>)
    requires s.closing
    ensures var t := Run(s, es);
            && t.closing && t.tx.accepted == s.tx.accepted
            && t.rx.delivered == s.rx.delivered && t.rx.counter == s.rx.counter
    decreases |es|
  {
    if es == [] {
    } else {
      ClosingStep(s, es[0]);
      ClosingRefuses(Step(s, es[0]), es[1..]);
    }
  }

  // ---------- draining before closing ----------

  /** The part of `Draining` that is about closing, apart from the buffers. */
  ghost predicate CloseReady(s: Sock) {
    && (!s.open ==> s.closing && !s.tx.writing)
    && (DoClose in s.tasks ==> s.closing && !s.tx.writing)
    && (s.closing && s.open ==> s.tx.writing || DoClose in s.tasks)
  }

  ghost predicate Draining(s: Sock) {
    && Ledger(s.tx) && Settled(s.tx) && InOrder(s) && s.tx.lost == 0
    && (s.tx.pending <==> s.tx.writing)
    && CloseReady(s)
  }

  lemma CloseReadyTask(s: Sock)
    requires CloseReady(s) && s.tasks != []
    ensures CloseReady(Step(s, RunTask))
  {
    assert s.tasks == [s.tasks[0]] + s.tasks[1..];
  }

  lemma CloseReadySent(s: Sock)
    requires CloseReady(s) && s.tx.pending && s.tx.writing
    ensures CloseReady(OnSent(s, Sent(|s.tx.flight|)))
  {
  }

  lemma CloseReadyStep(s: Sock, e: Event)
    requires Draining(s) && Enabled(s, e) && Calm(s, e)
    ensures CloseReady(Step(s, e))
  {
    match e
    case Post(t) =>
    case RunTask => CloseReadyTask(s);
    case ReadDone(r) =>
    case SendDone(r) => CloseReadySent(s);
  }

  lemma DrainingStep(s: Sock, e: Event)
    requires Draining(s) && (Enabled(s, e) ==> Calm(s, e))
    ensures Draining(Step(s, e))
  {
    LedgerStep(s, e);
    OrderStep(s, e);
    TxStep(s, e);
    if Enabled(s, e) { CloseReadyStep(s, e); }
  }

  lemma {:induction false} DrainingRun(s: Sock, es: seq<Event>)
    requires Draining(s) && CalmRun(s, es)
    ensures Draining(Run(s, es))
    decreases |es|
  {
    if es == [] {
    } else {
      DrainingStep(s, es[0]);
      DrainingRun(Step(s, es[0]), es[1..]);
    }
  }

  /** Drain before close: in a calm run the socket is closed only once every
      fitting message posted before close() is on the wire, whole and in order. */
  lemma DrainBeforeClose(counter: nat, es: seq<Event>)
    requires CalmRun(Fresh(counter), es)
    ensures var s := Run(Fresh(counter), es);
            && (forall p <- s.tx.accepted :: Sendable(p))
            && (!s.open ==>
                  (s.closing && MessagesOf(s.tx.accepted) == Fitting(s.posted)
                   && s.tx.wire == EncodeAll(s.tx.accepted)))
  {
    InvFresh(counter);
    DrainingRun(Fresh(counter), es);
    var s := Run(Fresh(counter), es);
    assert s.tx.wire + [] + [] == s.tx.wire;
  }

  /** Send completions still to come before the socket is free to close. */
  function SendsLeft(s: Sock): nat {
    if !s.tx.writing then 0 else if s.tx.idle == [] then 1 else 2
  }

  function Completions(s: Sock, es: seq<Event>): nat
    decreases |es|
  {
    if es == [] then 0
    else (if es[0].SendDone? && Enabled(s, es[0]) then 1 else 0) + Completions(Step(s, es[0]), es[1..])
  }

  lemma CompletionStep(s: Sock, e: Event)
    requires Draining(s) && s.closing && (Enabled(s, e) ==> Calm(s, e))
    ensures Step(s, e).closing
    ensures (if e.SendDone? && Enabled(s, e) then 1 else 0) + SendsLeft(Step(s, e)) == SendsLeft(s)
  {
    TxStep(s, e);
    ClosingStep(s, e);
  }

  /** After the close handler the number of send completions is bounded by two,
      and exactly accounted for; when none is left the socket is closed or its
      final close is already queued. */
  lemma {:induction false} AtMostTwoCompletions(s: Sock, es: seq<Event>)
    requires Draining(s) && s.closing && CalmRun(s, es)
    ensures var t := Run(s, es);
            && Completions(s, es) + SendsLeft(t) == SendsLeft(s) <= 2
            && (t.open && SendsLeft(t) == 0 ==> DoClose in t.tasks)
    decreases |es|
  {
    if es == [] {
    } else {
      CompletionStep(s, es[0]);
      DrainingStep(s, es[0]);
      hide Step;
      AtMostTwoCompletions(Step(s, es[0]), es[1..]);
    }
  }

  /** With nothing left to send, running the queued tasks closes the socket. */
  lemma {:induction false} TasksClose(s: Sock) returns (es: seq<Event>)
    requires Draining(s) && s.closing && !s.tx.writing
    ensures CalmRun(s, es) && !Run(s, es).open
    decreases |s.tasks|
  {
    es := [];
    if s.open {
      var s1 := Step(s, RunTask);
      DrainingStep(s, RunTask);
      var rest := TasksClose(s1);
      es := [RunTask] + rest;
      assert es[1..] == rest;
    }
  }

  /** Closing always completes: if the network finishes the outstanding sends
      and the strand runs its tasks, the socket closes. */
  lemma {:induction false} CloseCompletes(s: Sock) returns (es: seq<Event>)
    requires Draining(s) && s.closing
    ensures CalmRun(s, es) && !Run(s, es).open
    decreases SendsLeft(s)
  {
    if s.tx.writing {
      var e := SendDone(Sent(|s.tx.flight|));
      var s1 := Step(s, e);
      DrainingStep(s, e);
      var rest := CloseCompletes(s1);
      es := [e] + rest;
      assert es[1..] == rest;
    } else {
      es := TasksClose(s);
    }
  }
}
