/** Two connected sockets, each the other's network. Both sides write, read,
    fail and close in any order; the bytes one side has sent reach the other in
    order, cut into chunks of any size that fits the receive window. The one
    assumption about the network is that a successful send moves its whole
    buffer. */
module EndToEnd {
  import opened Wire
  import opened SocketModel

  /** `toA` and `toB` count the bytes of the other side's wire already read. */
  datatype Link = Link(a: Sock, b: Sock, toA: nat, toB: nat)

  datatype LinkEvent =
    | AtA(e: Event)
    | AtB(e: Event)
    | DeliverToA(n: nat)
    | DeliverToB(n: nat)

  /** An event of one socket that brings no bytes; sends are whole. */
  predicate Local(s: Sock, e: Event) {
    && (e.ReadDone? ==> !e.r.Bytes?)
    && (e.SendDone? && e.sr.Sent? ==> e.sr.n == |s.tx.flight|)
  }

  predicate CanDeliver(sender: Sock, receiver: Sock, k: nat, n: nat) {
    && receiver.rx.pending && !receiver.closing
    && n <= RECV_CAPACITY - |receiver.rx.unread|
    && k + n <= |sender.tx.wire|
  }

  function Deliver(sender: Sock, receiver: Sock, k: nat, n: nat): Sock
    requires CanDeliver(sender, receiver, k, n)
  {
    Step(receiver, ReadDone(Bytes(sender.tx.wire[k..k + n])))
  }

  function LinkStep(l: Link, e: LinkEvent): Link {
    match e
    case AtA(x) => if Local(l.a, x) then l.(a := Step(l.a, x)) else l
    case AtB(x) => if Local(l.b, x) then l.(b := Step(l.b, x)) else l
    case DeliverToA(n) =>
      if CanDeliver(l.b, l.a, l.toA, n) then l.(a := Deliver(l.b, l.a, l.toA, n), toA := l.toA + n) else l
    case DeliverToB(n) =>
      if CanDeliver(l.a, l.b, l.toB, n) then l.(b := Deliver(l.a, l.b, l.toB, n), toB := l.toB + n) else l
  }

  function LinkRun(l: Link, es: seq<LinkEvent>): Link
    decreases |es|
  {
    if es == [] then l else LinkRun(LinkStep(l, es[0]), es[1..])
  }

  function Connected(): Link {
    Link(Fresh(0), Fresh(0), 0, 0)
  }

  /** The sending side of one direction: everything on the wire is the front of
      the accepted packets, and none of them is counted. */
  ghost predicate Sends(t: Tx) {
    && Ledger(t) && Settled(t) && t.lost == 0
    && (forall p <- t.accepted :: p.index == 0)
  }

  /** The receiving side after k bytes of `wire`. */
  ghost predicate Receives(rx: Rx, wire: seq<byte>, k: nat) {
    && k <= |wire|
    && rx.counter == 0
    && var q := Parse(0, wire[..k]);
       && rx.delivered == q.msgs
       && (rx.pending ==> q.ok && q.counter == 0 && rx.unread == q.rest)
  }

  ghost predicate Linked(l: Link) {
    && Sends(l.a.tx) && Receives(l.b.rx, l.a.tx.wire, l.toB)
    && Sends(l.b.tx) && Receives(l.a.rx, l.b.tx.wire, l.toA)
  }

  /** The wire only grows. */
  lemma WireGrows(s: Sock, e: Event)
    ensures s.tx.wire <= Step(s, e).tx.wire
  {
    TxStep(s, e);
  }

  lemma SendsStep(s: Sock, e: Event)
    requires Sends(s.tx) && s.rx.counter == 0
    requires e.SendDone? && e.sr.Sent? ==> e.sr.n == |s.tx.flight|
    ensures Sends(Step(s, e).tx)
  {
    LedgerStep(s, e);
    TxStep(s, e);
  }

  lemma ReceivesFrame(rx: Rx, wire: seq<byte>, more: seq<byte>, k: nat)
    requires Receives(rx, wire, k) && wire <= more
    ensures Receives(rx, more, k)
  {
    assert more[..k] == wire[..k];
  }

  lemma LocalKeepsRx(s: Sock, e: Event, wire: seq<byte>, k: nat)
    requires Receives(s.rx, wire, k) && Local(s, e)
    ensures Receives(Step(s, e).rx, wire, k)
  {
    RxStep(s, e);
  }

  lemma UncountedFront(t: Tx, k: nat)
    requires Sends(t) && k <= |t.wire|
    ensures var r := Parse(0, t.wire[..k]);
            && r.ok && r.counter == 0
            && r.msgs <= MessagesOf(t.accepted)
            && (t.wire[..k] == EncodeAll(t.accepted) ==> r.msgs == MessagesOf(t.accepted))
  {
    assert t.wire[..k] <= t.wire <= t.wire + t.flight + t.idle;
    assert t.wire[..k] <= EncodeAll(t.accepted);
    ZeroIndices(IndicesOf(t.accepted));
    RoundTrip(0, t.accepted, t.wire[..k]);
    ZeroIndices(IndicesOf(t.accepted[..|Parse(0, t.wire[..k]).msgs|]));
  }

  /** A chunk that the stream accepts is parsed on from where the last one ended. */
  lemma Heard(rx: Rx, wire: seq<byte>, k: nat, n: nat)
    requires Receives(rx, wire, k) && rx.pending && k + n <= |wire|
    requires var r := Parse(0, wire[..k + n]); r.ok && r.counter == 0
    ensures Receive(rx, wire[k..k + n]).pending && Receives(Receive(rx, wire[k..k + n]), wire, k + n)
  {
    assert wire[..k] + wire[k..k + n] == wire[..k + n];
    ParseAppend(0, wire[..k], wire[k..k + n]);
    hide Parse;
  }

  lemma DeliverKeeps(sender: Sock, receiver: Sock, k: nat, n: nat)
    requires Sends(sender.tx) && Receives(receiver.rx, sender.tx.wire, k)
    requires CanDeliver(sender, receiver, k, n)
    ensures Receives(Deliver(sender, receiver, k, n).rx, sender.tx.wire, k + n)
    ensures Deliver(sender, receiver, k, n).tx == receiver.tx
    ensures Calm(receiver, ReadDone(Bytes(sender.tx.wire[k..k + n])))
  {
    var chunk := sender.tx.wire[k..k + n];
    UncountedFront(sender.tx, k + n);
    Heard(receiver.rx, sender.tx.wire, k, n);
    ReadLeavesTx(receiver, Bytes(chunk));
    hide Parse;
    hide Sends;
    hide Receives;
    hide Receive;
    hide Exec;
    hide Enqueue;
    hide OnSent;
    assert Deliver(sender, receiver, k, n) == OnRead(receiver, Bytes(chunk));
  }

  /** A local event of one side keeps both directions. */
  lemma LocalKeeps(s: Sock, e: Event, peer: Sock, toPeer: nat, fromPeer: nat)
    requires Sends(s.tx) && Receives(peer.rx, s.tx.wire, toPeer)
    requires Receives(s.rx, peer.tx.wire, fromPeer) && Local(s, e)
    ensures var s' := Step(s, e);
            Sends(s'.tx) && Receives(peer.rx, s'.tx.wire, toPeer) && Receives(s'.rx, peer.tx.wire, fromPeer)
  {
    SendsStep(s, e);
    WireGrows(s, e);
    ReceivesFrame(peer.rx, s.tx.wire, Step(s, e).tx.wire, toPeer);
    LocalKeepsRx(s, e, peer.tx.wire, fromPeer);
  }

  lemma LinkedLocal(l: Link, e: LinkEvent)
    requires Linked(l) && (e.AtA? || e.AtB?)
    ensures Linked(LinkStep(l, e))
  {
    match e
    case AtA(x) => if Local(l.a, x) { LocalKeeps(l.a, x, l.b, l.toB, l.toA); }
    case AtB(x) => if Local(l.b, x) { LocalKeeps(l.b, x, l.a, l.toA, l.toB); }
  }

  lemma LinkedToA(l: Link, n: nat)
    requires Linked(l)
    ensures Linked(LinkStep(l, DeliverToA(n)))
  {
    if CanDeliver(l.b, l.a, l.toA, n) { DeliverKeeps(l.b, l.a, l.toA, n); }
  }

  lemma LinkedToB(l: Link, n: nat)
    requires Linked(l)
    ensures Linked(LinkStep(l, DeliverToB(n)))
  {
    if CanDeliver(l.a, l.b, l.toB, n) { DeliverKeeps(l.a, l.b, l.toB, n); }
  }

  lemma LinkedStep(l: Link, e: LinkEvent)
    requires Linked(l)
    ensures Linked(LinkStep(l, e))
  {
    match e
    case DeliverToA(n) => LinkedToA(l, n);
    case DeliverToB(n) => LinkedToB(l, n);
    case _ => LinkedLocal(l, e);
  }

  lemma {:induction false} LinkedRun(l: Link, es: seq<LinkEvent>)
    requires Linked(l)
    ensures Linked(LinkRun(l, es))
    decreases |es|
  {
    if es == [] {
    } else {
      LinkedStep(l, es[0]);
      LinkedRun(LinkStep(l, es[0]), es[1..]);
    }
  }

  lemma Direction(t: Tx, k: nat)
    requires Sends(t) && k <= |t.wire|
    ensures Parse(0, t.wire[..k]).msgs <= MessagesOf(t.accepted)
    ensures k == |EncodeAll(t.accepted)| ==> Parse(0, t.wire[..k]).msgs == MessagesOf(t.accepted)
  {
    UncountedFront(t, k);
    if k == |EncodeAll(t.accepted)| {
      assert t.wire[..k] == t.wire == t.wire + t.flight + t.idle;
    }
  }

  /** End to end, in both directions at once: in every run what one side has
      been delivered is a prefix of what the other side accepted for sending,
      equal to it once every encoded byte has been read, and both counters stay
      at zero. */
  lemma EndToEndRoundTrip(es: seq<LinkEvent>)
    ensures var l := LinkRun(Connected(), es);
            && l.a.rx.counter == 0 && l.b.rx.counter == 0
            && (forall p <- l.a.tx.accepted + l.b.tx.accepted :: Sendable(p))
            && l.b.rx.delivered <= MessagesOf(l.a.tx.accepted)
            && l.a.rx.delivered <= MessagesOf(l.b.tx.accepted)
            && (l.toB == |EncodeAll(l.a.tx.accepted)| ==> l.b.rx.delivered == MessagesOf(l.a.tx.accepted))
            && (l.toA == |EncodeAll(l.b.tx.accepted)| ==> l.a.rx.delivered == MessagesOf(l.b.tx.accepted))
  {
    assert MessagesOf([]) == [];
    assert [] == Fresh(0).tx.wire[..0];
    LinkedRun(Connected(), es);
    var l := LinkRun(Connected(), es);
    Direction(l.a.tx, l.toB);
    Direction(l.b.tx, l.toA);
  }

  /** No failure at side A: its sends complete, and its reads do not fail before
      it is closing. Bad packets need no mention: they cannot arrive. */
  ghost predicate QuietAtA(l: Link, e: LinkEvent) {
    e.AtA? && Enabled(l.a, e.e) ==>
      && (e.e.SendDone? ==> e.e.sr.Sent?)
      && (e.e.ReadDone? ==> e.e.r.ReadAborted? || l.a.closing)
  }

  ghost predicate QuietRun(l: Link, es: seq<LinkEvent>)
    decreases |es|
  {
    es == [] || (QuietAtA(l, es[0]) && QuietRun(LinkStep(l, es[0]), es[1..]))
  }

  lemma QuietDeliver(l: Link, n: nat)
    requires Linked(l) && Draining(l.a) && CanDeliver(l.b, l.a, l.toA, n)
    ensures Draining(Deliver(l.b, l.a, l.toA, n))
  {
    DeliverKeeps(l.b, l.a, l.toA, n);
    hide Receives;
    DrainingStep(l.a, ReadDone(Bytes(l.b.tx.wire[l.toA..l.toA + n])));
  }

  lemma QuietStep(l: Link, e: LinkEvent)
    requires Linked(l) && Draining(l.a) && QuietAtA(l, e)
    ensures Draining(LinkStep(l, e).a)
  {
    if e.AtA? && Local(l.a, e.e) {
      DrainingStep(l.a, e.e);
    } else if e.DeliverToA? && CanDeliver(l.b, l.a, l.toA, e.n) {
      QuietDeliver(l, e.n);
    }
  }

  lemma {:induction false} QuietDrains(l: Link, es: seq<LinkEvent>)
    requires Linked(l) && Draining(l.a) && QuietRun(l, es)
    ensures Linked(LinkRun(l, es)) && Draining(LinkRun(l, es).a)
    decreases |es|
  {
    if es == [] {
    } else {
      LinkedStep(l, es[0]);
      QuietStep(l, es[0]);
      QuietDrains(LinkStep(l, es[0]), es[1..]);
    }
  }

  /** Posting messages and then closing loses nothing: in a run without failures
      at A, once A is closed and B has read A's wire to its end, B has been
      delivered exactly the fitting messages posted to A before its close. */
  lemma CloseDeliversAll(es: seq<LinkEvent>)
    requires QuietRun(Connected(), es)
    ensures var l := LinkRun(Connected(), es);
            !l.a.open && l.toB == |l.a.tx.wire| ==> l.b.rx.delivered == Fitting(l.a.posted)
  {
    assert MessagesOf([]) == [];
    assert [] == Fresh(0).tx.wire[..0];
    QuietDrains(Connected(), es);
    var l := LinkRun(Connected(), es);
    if !l.a.open && l.toB == |l.a.tx.wire| {
      assert l.a.tx.wire + [] + [] == l.a.tx.wire;
      Direction(l.a.tx, l.toB);
    }
  }
}
