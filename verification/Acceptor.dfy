/** The acceptor's registry of live sockets, on its own strand, together with the
    strands of all its sockets: who may tell the logic layer that a socket is
    gone, and how often. */
module Acceptors {
  import opened Sequences
  import opened SocketModel
  import opened Wire

  type Id = nat

  /** Work posted to the acceptor's strand. */
  datatype ATask = Active(id: Id) | Passive(id: Id) | Clear | Stop

  /** How an asynchronous accept completes. */
  datatype AcceptResult = Accepted(id: Id) | AcceptFailed | AcceptAborted

  /** What one handler does: the registry afterwards, the sockets whose close()
      it calls, and the sockets it reports to the logic's onClose. */
  datatype Effect = Effect(vec: seq<Id>, closes: seq<Id>, notices: seq<Id>)

  /** The registry without the first entry for `id`. */
  function Drop(vec: seq<Id>, id: Id): seq<Id> {
    if vec == [] then []
    else if vec[0] == id then vec[1..]
    else [vec[0]] + Drop(vec[1..], id)
  }

  function Handle(vec: seq<Id>, t: ATask): Effect {
    match t
    case Active(id) => if id in vec then Effect(Drop(vec, id), [id], []) else Effect(vec, [], [])
    case Passive(id) => if id in vec then Effect(Drop(vec, id), [], [id]) else Effect(vec, [], [])
    case Clear => Effect([], vec, [])
    case Stop => Effect(vec, [], [])
  }

  /** Whether the accept handler takes a new socket, and whether it accepts again. */
  predicate Takes(open: bool, r: AcceptResult) {
    open && r.Accepted?
  }

  predicate Again(open: bool, r: AcceptResult) {
    open && !r.AcceptAborted?
  }

  // ---------- the handlers on the object ----------

  lemma {:induction false} DropAt(vec: seq<Id>, id: Id, i: nat)
    requires i < |vec| && vec[i] == id && id !in vec[..i]
    ensures id in vec && Drop(vec, id) == vec[..i] + vec[i + 1..]
  {
    if i == 0 {
    } else {
      assert vec[..i][0] == vec[0];
      assert id !in vec[1..][..i - 1] by { assert vec[1..][..i - 1] == vec[..i][1..]; }
      DropAt(vec[1..], id, i - 1);
      assert vec[..i] == [vec[0]] + vec[1..][..i - 1];
    }
  }

  class Acceptor {
    var socketVec: seq<Id>
    var isOpen: bool
    var accepting: bool
    var closeCalls: seq<Id>
    var onCloseCalls: seq<Id>
    var onNewAcceptCalls: seq<Id>
    var readCalls: seq<Id>

    /** A listening acceptor, its first accept started. */
    constructor ()
      ensures socketVec == closeCalls == onCloseCalls == onNewAcceptCalls == readCalls == []
      ensures isOpen && accepting
    {
      socketVec, closeCalls, onCloseCalls, onNewAcceptCalls, readCalls := [], [], [], [], [];
      isOpen, accepting := true, true;
    }

    /** std::find_if over the registry. */
    method Find(s: Id) returns (i: nat)
      ensures i <= |socketVec| && s !in socketVec[..i]
      ensures i < |socketVec| ==> socketVec[i] == s
    {
      i := 0;
      while i < |socketVec| && socketVec[i] != s
        invariant i <= |socketVec| && s !in socketVec[..i]
      {
        i := i + 1;
      }
    }

    method ActiveHandler(s: Id)
      modifies this`socketVec, this`closeCalls, this`onCloseCalls
      ensures var e := Handle(old(socketVec), Active(s));
              && socketVec == e.vec
              && closeCalls == old(closeCalls) + e.closes
              && onCloseCalls == old(onCloseCalls) + e.notices
      ensures closeCalls == old(closeCalls) + if s in old(socketVec) then [s] else []
      ensures onCloseCalls == old(onCloseCalls)
    {
      var i := Find(s);
      if i == |socketVec| {
        return;
      }
      DropAt(socketVec, s, i);
      closeCalls := closeCalls + [s];
      socketVec := socketVec[..i] + socketVec[i + 1..];
    }

    method PassiveHandler(s: Id)
      modifies this`socketVec, this`closeCalls, this`onCloseCalls
      ensures var e := Handle(old(socketVec), Passive(s));
              && socketVec == e.vec
              && closeCalls == old(closeCalls) + e.closes
              && onCloseCalls == old(onCloseCalls) + e.notices
      ensures onCloseCalls == old(onCloseCalls) + if s in old(socketVec) then [s] else []
      ensures closeCalls == old(closeCalls)
    {
      var i := Find(s);
      if i == |socketVec| {
        return;
      }
      DropAt(socketVec, s, i);
      onCloseCalls := onCloseCalls + [s];
      socketVec := socketVec[..i] + socketVec[i + 1..];
    }

    method ClearHandler()
      modifies this`socketVec, this`closeCalls, this`onCloseCalls
      ensures var e := Handle(old(socketVec), Clear);
              && socketVec == e.vec
              && closeCalls == old(closeCalls) + e.closes
              && onCloseCalls == old(onCloseCalls) + e.notices
      ensures socketVec == [] && closeCalls == old(closeCalls) + old(socketVec) && onCloseCalls == old(onCloseCalls)
    {
      var i := 0;
      while i < |socketVec|
        invariant i <= |socketVec| && socketVec == old(socketVec) && onCloseCalls == old(onCloseCalls)
        invariant closeCalls == old(closeCalls) + socketVec[..i]
      {
        closeCalls := closeCalls + [socketVec[i]];
        i := i + 1;
      }
      assert socketVec[..i] == socketVec;
      socketVec := [];
    }

    method StopHandler()
      modifies this`isOpen
      ensures !isOpen
    {
      if !isOpen {
        return;
      }
      isOpen := false;
    }

    /** The accept completion: a new socket is registered, announced and read from,
        in that order, and the next accept is started, unless the acceptor was
        closed or the accept cancelled. */
    method AcceptHandler(r: AcceptResult)
      requires accepting
      modifies this`socketVec, this`accepting, this`onNewAcceptCalls, this`readCalls
      ensures var news := if Takes(isOpen, r) then [r.id] else [];
              && socketVec == old(socketVec) + news
              && onNewAcceptCalls == old(onNewAcceptCalls) + news
              && readCalls == old(readCalls) + news
      ensures accepting == Again(isOpen, r)
    {
      accepting := false;
      if r.AcceptAborted? {
        return;
      }
      if !isOpen {
        return;
      }
      if r.Accepted? {
        socketVec := socketVec + [r.id];
        onNewAcceptCalls := onNewAcceptCalls + [r.id];
        readCalls := readCalls + [r.id];
      }
      accepting := true;
    }
  }

  // ---------- acceptor and sockets together ----------

  datatype Registry = Registry(
    socks: map<Id, Sock>,
    vec: seq<Id>,
    tasks: seq<ATask>,
    // the listening socket, and whether an accept is outstanding
    open: bool,
    accepting: bool,
    // onNewAccept and onClose calls made, and sockets removed on request
    announced: seq<Id>,
    closed: seq<Id>,
    gone: set<Id>)

  /** AtSocket is any event of one socket's own strand; close() is called by the
      acceptor only. */
  datatype REvent =
    | Accept(r: AcceptResult)
    | PostActive(id: Id)
    | PostClear
    | PostStop
    | RunNext
    | AtSocket(id: Id, e: Event)

  function Empty(): Registry {
    Registry(map[], [], [], true, true, [], [], {})
  }

  function PostCloses(socks: map<Id, Sock>, ids: seq<Id>): map<Id, Sock> {
    map id | id in socks :: if id in ids then Step(socks[id], Post(Close)) else socks[id]
  }

  /** The accept completion; every socket is a new one, and reads from the start. */
  function OnAccept(r: Registry, a: AcceptResult): Registry {
    if !r.accepting || (a.Accepted? && a.id in r.socks) then r
    else if !Takes(r.open, a) then r.(accepting := Again(r.open, a))
    else
      r.(socks := r.socks[a.id := Fresh(0)], vec := r.vec + [a.id],
         announced := r.announced + [a.id], accepting := Again(r.open, a))
  }

  function Apply(r: Registry, e: Effect): Registry {
    r.(socks := PostCloses(r.socks, e.closes), vec := e.vec,
       closed := r.closed + e.notices, gone := r.gone + set id <- e.closes)
  }

  function RStep(r: Registry, e: REvent): Registry {
    match e
    case Accept(a) => OnAccept(r, a)
    case PostActive(id) => r.(tasks := r.tasks + [Active(id)])
    case PostClear => r.(tasks := r.tasks + [Clear])
    case PostStop => r.(tasks := r.tasks + [Stop])
    case RunNext =>
      if r.tasks == [] then r
      else
        Apply(r.(tasks := r.tasks[1..], open := r.open && !r.tasks[0].Stop?), Handle(r.vec, r.tasks[0]))
    case AtSocket(id, x) =>
      if id !in r.socks || x == Post(Close) then r
      else
        var s := r.socks[id];
        var s' := Step(s, x);
        r.(socks := r.socks[id := s'],
           tasks := r.tasks + if s'.passive > s.passive then [Passive(id)] else [])
  }

  function RRun(r: Registry, es: seq<REvent>): Registry
    decreases |es|
  {
    if es == [] then r else RRun(RStep(r, es[0]), es[1..])
  }

  /** A socket the acceptor has not told to close. */
  ghost predicate Attached(s: Sock) {
    !s.closing && s.notify && Close !in s.tasks && DoClose !in s.tasks
  }

  /** Every socket ever accepted is in exactly one place: registered, reported
      closed, or removed on request. */
  ghost predicate Places(r: Registry) {
    && NoDup(r.vec) && NoDup(r.closed) && NoDup(r.announced)
    && (forall id: Id :: id in r.announced <==> id in r.socks)
    && (forall id <- r.socks :: id in r.vec || id in r.closed || id in r.gone)
    && (forall id <- r.vec :: id in r.socks && id !in r.closed && id !in r.gone)
    && (forall id <- r.closed :: id in r.socks && id !in r.gone)
    && (forall id <- r.gone :: id in r.socks)
  }

  ghost predicate Watched(r: Registry) {
    forall id <- r.vec :: id in r.socks && Attached(r.socks[id])
                          && (!r.socks[id].open ==> Passive(id) in r.tasks)
  }

  lemma {:induction false} DropNoDup(vec: seq<Id>, id: Id)
    requires NoDup(vec) && id in vec
    ensures NoDup(Drop(vec, id))
    ensures forall x :: x in Drop(vec, id) <==> x in vec && x != id
  {
    var head, tail := vec[0], vec[1..];
    assert vec == [head] + tail;
    assert NoDup(tail) && head !in tail by {
      forall k | 0 <= k < |tail| ensures tail[k] == vec[k + 1] && tail[k] != vec[0] {
      }
    }
    if head != id { DropNoDup(tail, id); }
  }

  /** A socket that was not told to close stays so, and closes only by calling
      the acceptor back. */
  lemma AttachedStep(s: Sock, e: Event)
    requires Attached(s) && e != Post(Close)
    ensures Attached(Step(s, e))
    ensures Step(s, e).open || Step(s, e).passive > s.passive || !s.open
  {
    if Enabled(s, e) && e.RunTask? {
      assert s.tasks == [s.tasks[0]] + s.tasks[1..];
      assert s.tasks[0].Write?;
    }
  }

  lemma NoDupSnoc(v: seq<Id>, id: Id)
    requires NoDup(v) && id !in v
    ensures NoDup(v + [id])
  {
  }

  lemma PlacesActive(r: Registry)
    requires Places(r) && r.tasks != [] && r.tasks[0].Active?
    ensures Places(RStep(r, RunNext))
  {
    hide Step;
    var id := r.tasks[0].id;
    if id in r.vec { DropNoDup(r.vec, id); }
    hide Drop;
    assert r.closed + [] == r.closed;
  }

  lemma PlacesPassive(r: Registry)
    requires Places(r) && r.tasks != [] && r.tasks[0].Passive?
    ensures Places(RStep(r, RunNext))
  {
    hide Step;
    var id := r.tasks[0].id;
    if id in r.vec {
      DropNoDup(r.vec, id);
      NoDupSnoc(r.closed, id);
    }
    hide Drop;
  }

  lemma PlacesClear(r: Registry)
    requires Places(r) && r.tasks != [] && r.tasks[0].Clear?
    ensures Places(RStep(r, RunNext))
  {
    hide Step;
  }

  lemma PlacesRun(r: Registry)
    requires Places(r) && r.tasks != []
    ensures Places(RStep(r, RunNext))
  {
    hide Step;
    match r.tasks[0]
    case Clear => PlacesClear(r);
    case Stop =>
    case Active(_) => PlacesActive(r);
    case Passive(_) => PlacesPassive(r);
  }

  lemma PlacesStep(r: Registry, e: REvent)
    requires Places(r)
    ensures Places(RStep(r, e))
  {
    if e.RunNext? && r.tasks != [] { PlacesRun(r); }
  }

  lemma WatchedRun(r: Registry)
    requires Places(r) && Watched(r) && r.tasks != []
    ensures Watched(RStep(r, RunNext))
  {
    var t, rest := r.tasks[0], r.tasks[1..];
    assert r.tasks == [t] + rest;
    if (t.Active? || t.Passive?) && t.id in r.vec { DropNoDup(r.vec, t.id); }
  }

  lemma WatchedStep(r: Registry, e: REvent)
    requires Places(r) && Watched(r)
    ensures Watched(RStep(r, e))
  {
    match e
    case RunNext => if r.tasks != [] { WatchedRun(r); }
    case AtSocket(id, x) =>
      if id in r.vec && x != Post(Close) { AttachedStep(r.socks[id], x); }
    case _ =>
  }

  lemma {:induction false} RegistryRun(r: Registry, es: seq<REvent>)
    requires Places(r) && Watched(r)
    ensures Places(RRun(r, es)) && Watched(RRun(r, es))
    decreases |es|
  {
    if es == [] {
    } else {
      PlacesStep(r, es[0]);
      WatchedStep(r, es[0]);
      RegistryRun(RStep(r, es[0]), es[1..]);
    }
  }

  /** The close protocol over both strands, for every interleaving: onClose is
      called at most once per socket and never for one removed on request; a
      registered socket that is closed has its removal still queued; every accepted
      socket has been announced exactly once and is in exactly one place. */
  lemma CloseProtocol(es: seq<REvent>)
    ensures var r := RRun(Empty(), es);
            && NoDup(r.closed) && NoDup(r.announced)
            && (forall id: Id :: id in r.announced <==> id in r.socks)
            && (forall id <- r.closed :: id !in r.gone && id !in r.vec)
            && (forall id <- r.vec :: id in r.socks && (!r.socks[id].open ==> Passive(id) in r.tasks))
            && (forall id <- r.socks :: id in r.vec || id in r.closed || id in r.gone)
  {
    RegistryRun(Empty(), es);
  }

  lemma ShutStays(s: Sock, e: Event)
    requires !s.open
    ensures !Step(s, e).open
  {
  }

  lemma NeverReopensStep(r: Registry, e: REvent, id: Id)
    requires id in r.socks && !r.socks[id].open
    ensures id in RStep(r, e).socks && !RStep(r, e).socks[id].open
  {
    ShutStays(r.socks[id], Post(Close));
    if e.AtSocket? { ShutStays(r.socks[id], e.e); }
    hide Step;
  }

  lemma {:induction false} NeverReopens(r: Registry, es: seq<REvent>, id: Id)
    requires id in r.socks && !r.socks[id].open
    ensures id in RRun(r, es).socks && !RRun(r, es).socks[id].open
    decreases |es|
  {
    hide RStep;
    if es == [] {
    } else {
      NeverReopensStep(r, es[0], id);
      NeverReopens(RStep(r, es[0]), es[1..], id);
    }
  }

  lemma {:induction false} RunQueue(r: Registry, n: nat)
    requires n == |r.tasks|
    ensures RRun(r, seq(n, _ => RunNext)).tasks == []
    decreases n
  {
    var es := seq(n, _ => RunNext);
    if n == 0 {
    } else {
      assert es[1..] == seq(n - 1, _ => RunNext);
      RunQueue(RStep(r, RunNext), n - 1);
    }
  }

  /** No socket is forgotten: once the acceptor has run its queue, every socket
      that had closed has been reported or had been removed on request. */
  lemma ClosedIsReported(es: seq<REvent>, id: Id)
    requires var r := RRun(Empty(), es); id in r.socks && !r.socks[id].open
    ensures var r := RRun(Empty(), es);
            var done := RRun(r, seq(|r.tasks|, _ => RunNext));
            id in done.closed || id in done.gone
  {
    var r := RRun(Empty(), es);
    var more := seq(|r.tasks|, _ => RunNext);
    RegistryRun(Empty(), es);
    RegistryRun(r, more);
    NeverReopens(r, more, id);
    RunQueue(r, |r.tasks|);
  }

  /** Once the acceptor is closed no socket is taken any more, in any continuation. */
  lemma {:induction false} ClosedTakesNone(r: Registry, es: seq<REvent>)
    requires !r.open
    ensures !RRun(r, es).open && RRun(r, es).announced == r.announced
    decreases |es|
  {
    if es != [] { ClosedTakesNone(RStep(r, es[0]), es[1..]); }
  }

  ghost predicate NoAcceptCancelled(es: seq<REvent>) {
    forall e <- es :: e != Accept(AcceptAborted)
  }

  lemma {:induction false} AcceptingRun(r: Registry, es: seq<REvent>)
    requires (r.open ==> r.accepting) && NoAcceptCancelled(es)
    ensures RRun(r, es).open ==> RRun(r, es).accepting
    decreases |es|
  {
    if es == [] {
    } else {
      assert es[0] in es && forall e <- es[1..] :: e in es;
      AcceptingRun(RStep(r, es[0]), es[1..]);
    }
  }

  /** Accepting goes on: in every run without a cancelled accept an open acceptor has
      one outstanding, and the next client is registered last, announced, and read from. */
  lemma NextIsTaken(es: seq<REvent>, id: Id)
    requires NoAcceptCancelled(es)
    ensures var r := RRun(Empty(), es);
            && (r.open ==> r.accepting)
            && (r.open && id !in r.socks ==>
                  var t := RStep(r, Accept(Accepted(id)));
                  && t.vec == r.vec + [id] && t.announced == r.announced + [id] && t.accepting
                  && id in t.socks && t.socks[id].open && t.socks[id].rx.pending && t.socks[id].rx.counter == 0)
  {
    AcceptingRun(Empty(), es);
  }

  /** A failed accept takes nobody, a cancelled one ends accepting. */
  lemma FailedAccept(r: Registry)
    requires r.open && r.accepting
    ensures RStep(r, Accept(AcceptFailed)) == r
    ensures RStep(r, Accept(AcceptAborted)) == r.(accepting := false)
  {
  }

  /** What the acceptor's strand does to a socket, whatever was asked: on request it is
      told to close and is gone, without a report; on its own close it is reported; and
      clearing does the first to everybody. */
  lemma RemovalExactly(r: Registry)
    requires Places(r) && r.tasks != []
    ensures var t, q := r.tasks[0], RStep(r, RunNext);
            && q.tasks == r.tasks[1..]
            && (t.Active? && t.id in r.vec ==>
                  && q.gone == r.gone + {t.id} && q.closed == r.closed && q.socks[t.id].closePosted
                  && (forall x :: x in q.vec <==> x in r.vec && x != t.id))
            && (t.Passive? && t.id in r.vec ==>
                  && q.gone == r.gone && q.closed == r.closed + [t.id] && q.socks == r.socks
                  && (forall x :: x in q.vec <==> x in r.vec && x != t.id))
            && (t.Clear? ==>
                  && q.vec == [] && q.closed == r.closed && (forall x :: x in q.gone <==> x in r.gone || x in r.vec)
                  && (forall x <- r.vec :: x in q.socks && q.socks[x].closePosted))
            && (t.Stop? ==> !q.open && q.vec == r.vec && q.socks == r.socks)
            && ((t.Active? || t.Passive?) && t.id !in r.vec ==> q.vec == r.vec && q.socks == r.socks)
  {
    var t := r.tasks[0];
    if (t.Active? || t.Passive?) && t.id in r.vec { DropNoDup(r.vec, t.id); }
    hide Drop;
  }

  lemma {:induction false} RRunSnoc(r: Registry, es: seq<REvent>, e: REvent)
    ensures RRun(r, es + [e]) == RStep(RRun(r, es), e)
    decreases |es|
  {
    if es == [] {
      assert RRun(RStep(r, e), []) == RStep(r, e);
      assert [e][1..] == [];
    } else {
      assert (es + [e])[1..] == es[1..] + [e];
      RRunSnoc(RStep(r, es[0]), es[1..], e);
    }
  }

  /** A failed read or send of a registered socket, or bytes that are no packet, end in
      a report or in a removal on request once the acceptor has run its queue. */
  lemma FailureIsReported(es: seq<REvent>, id: Id, x: Event)
    requires var r := RRun(Empty(), es);
             && id in r.vec && id in r.socks && Enabled(r.socks[id], x)
             && (x == ReadDone(ReadFailed) || x == SendDone(SendFailed)
                 || (x.ReadDone? && x.r.Bytes? && !Parse(r.socks[id].rx.counter, r.socks[id].rx.unread + x.r.chunk).ok))
    ensures var r := RStep(RRun(Empty(), es), AtSocket(id, x));
            var done := RRun(r, seq(|r.tasks|, _ => RunNext));
            id in done.closed || id in done.gone
  {
    var r := RRun(Empty(), es);
    RegistryRun(Empty(), es);
    RRunSnoc(Empty(), es, AtSocket(id, x));
    assert !Step(r.socks[id], x).open;
    ClosedIsReported(es + [AtSocket(id, x)], id);
  }
}
