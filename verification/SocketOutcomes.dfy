/** What the events of a socket come to, in the numbers of the protocol: which messages
    are taken and how they are numbered, what a failed read or send does, and how often
    the acceptor is told. */
module SocketOutcomes {
  import opened Wire
  import opened SocketModel

  // ---------- what a write sends ----------

  /** The write handler takes a message. */
  ghost predicate TakesMessage(s: Sock, e: Event) {
    e.RunTask? && s.tasks != [] && s.tasks[0].Write? && !s.closing && |s.tasks[0].m.body| <= 65529
  }

  /** Exactly then a packet is accepted: the message under its command, with its body,
      flag 2 or 0 for its zip bit, and the low byte of the counter as index. */
  lemma WriteNumbers(s: Sock, e: Event)
    ensures !TakesMessage(s, e) ==> Step(s, e).tx.accepted == s.tx.accepted
    ensures TakesMessage(s, e) ==>
              var m, n := s.tasks[0].m, |s.tx.accepted|;
              && |Step(s, e).tx.accepted| == n + 1 && Step(s, e).tx.accepted[..n] == s.tx.accepted
              && var p := Step(s, e).tx.accepted[n];
                 && p.cmd == m.cmd && p.body == m.body
                 && p.flag == (if m.zip then 2 else 0) && p.index == s.rx.counter % 256
  {
    if e.ReadDone? { ReadLeavesTx(s, e.r); }
  }

  lemma CounterBetween(counter: nat, k: nat)
    requires 1 <= counter <= 254
    ensures 1 <= Cycle(counter, k) <= 254 && Cycle(counter, k) == (counter - 1 + k) % 254 + 1
    ensures Cycle(counter, k) % 256 == Cycle(counter, k)
  {
  }

  /** In a run of a counting socket the index of a packet is the next of the cycle after
      the packets received so far, which is what the peer that sent those expects. */
  lemma AnswerIndex(counter: nat, es: seq<Event>, e: Event)
    requires 1 <= counter <= 254 && TakesMessage(Run(Fresh(counter), es), e)
    ensures var s := Run(Fresh(counter), es);
            var p := Step(s, e).tx.accepted[|s.tx.accepted|];
            && p.index == (counter - 1 + |s.rx.delivered|) % 254 + 1
            && Admit(s.rx.counter, p.index).Some?
  {
    var s := Run(Fresh(counter), es);
    WriteNumbers(s, e);
    var ps := RunIndices(counter, es);
    CounterBetween(counter, |ps|);
    hide Run;
    hide Step;
  }

  ghost predicate Numbered(t: Tx) {
    forall p <- t.accepted :: 1 <= p.index <= 254
  }

  lemma NumberedStep(s: Sock, e: Event)
    requires 1 <= s.rx.counter <= 254 && Numbered(s.tx)
    ensures Numbered(Step(s, e).tx)
  {
    WriteNumbers(s, e);
    var n, now := |s.tx.accepted|, Step(s, e).tx.accepted;
    hide Step;
    if TakesMessage(s, e) { assert now == s.tx.accepted + [now[n]]; }
  }

  /** Everything a counting socket ever accepts for sending is numbered 1 to 254. */
  lemma {:induction false} NumberedRun(s: Sock, es: seq<Event>)
    requires 1 <= s.rx.counter <= 254 && Numbered(s.tx)
    ensures Numbered(Run(s, es).tx)
    decreases |es|
  {
    if es == [] {
    } else {
      NumberedStep(s, es[0]);
      CounterStays(s, [es[0]]);
      RunOne(s, es[0]);
      NumberedRun(Step(s, es[0]), es[1..]);
    }
  }

  // ---------- reads and sends go on, or the socket closes ----------

  /** No read of the run was cancelled. */
  ghost predicate NoReadCancelled(s: Sock, es: seq<Event>)
    decreases |es|
  {
    es == []
    || ((Enabled(s, es[0]) ==> es[0] != ReadDone(ReadAborted)) && NoReadCancelled(Step(s, es[0]), es[1..]))
  }

  lemma {:induction false} ReadingRun(s: Sock, es: seq<Event>)
    requires (s.open && !s.closing ==> s.rx.pending) && NoReadCancelled(s, es)
    ensures var t := Run(s, es); t.open && !t.closing ==> t.rx.pending
    decreases |es|
  {
    if es == [] {
    } else {
      RxStep(s, es[0]);
      ReadingRun(Step(s, es[0]), es[1..]);
    }
  }

  /** An open socket that nobody has asked to close is being read from, in every run
      without a cancelled read: whatever else ends the reading closes the socket. */
  lemma ReadsOrCloses(counter: nat, es: seq<Event>)
    requires NoReadCancelled(Fresh(counter), es)
    ensures var s := Run(Fresh(counter), es); s.open && !s.closing ==> s.rx.pending
  {
    ReadingRun(Fresh(counter), es);
  }

  ghost predicate NoSendCancelled(s: Sock, es: seq<Event>)
    decreases |es|
  {
    es == []
    || ((Enabled(s, es[0]) ==> es[0] != SendDone(SendAborted)) && NoSendCancelled(Step(s, es[0]), es[1..]))
  }

  lemma {:induction false} SendingRun(s: Sock, es: seq<Event>)
    requires (s.open && s.tx.writing ==> s.tx.pending) && NoSendCancelled(s, es)
    ensures var t := Run(s, es); t.open && t.tx.writing ==> t.tx.pending
    decreases |es|
  {
    if es == [] {
    } else {
      if es[0].ReadDone? { ReadLeavesTx(s, es[0].r); }
      SendingRun(Step(s, es[0]), es[1..]);
    }
  }

  /** The same of sending: an open socket that has started a send is waiting for it. */
  lemma SendsOrCloses(counter: nat, es: seq<Event>)
    requires NoSendCancelled(Fresh(counter), es)
    ensures var s := Run(Fresh(counter), es); s.open && s.tx.writing ==> s.tx.pending
  {
    SendingRun(Fresh(counter), es);
  }

  /** A cancelled read or send changes nothing but that it is no longer awaited. */
  lemma CancelKeeps(s: Sock)
    ensures Enabled(s, ReadDone(ReadAborted)) ==> Step(s, ReadDone(ReadAborted)) == s.(rx := s.rx.(pending := false))
    ensures Enabled(s, SendDone(SendAborted)) ==> Step(s, SendDone(SendAborted)) == s.(tx := s.tx.(pending := false))
  {
  }

  /** A request to close is obeyed at once unless a send is under way; a send that
      completes never closes the socket itself, but with nothing left to send queues the
      close behind what is queued already. */
  lemma CloseInTurn(s: Sock, n: nat)
    ensures s.tasks != [] && s.tasks[0] == Close ==>
              var t := Step(s, RunTask);
              t.closing && t.open == (s.open && s.tx.writing) && t.tasks == s.tasks[1..] && t.tx == s.tx
    ensures Enabled(s, SendDone(Sent(n))) ==>
              var t := Step(s, SendDone(Sent(n)));
              t.open == s.open && t.closing == s.closing
              && t.tasks == s.tasks + if s.closing && s.tx.idle == [] then [DoClose] else []
  {
  }

  // ---------- telling the acceptor ----------

  ghost predicate Told(s: Sock) {
    && s.passive <= 1 && (s.open ==> s.passive == 0)
    && (!s.open && !s.closing ==> s.passive == 1)
    && (s.open ==> s.notify)
    && (DoClose in s.tasks ==> s.closing)
  }

  lemma ToldTask(s: Sock)
    requires Told(s) && s.tasks != []
    ensures Told(Step(s, RunTask))
  {
    assert s.tasks == [s.tasks[0]] + s.tasks[1..];
    hide Encode;
    hide PacketOf;
  }

  lemma ToldStep(s: Sock, e: Event)
    requires Told(s)
    ensures Told(Step(s, e))
  {
    if e.RunTask? && s.tasks != [] { ToldTask(s); }
    hide Exec;
    hide Parse;
  }

  lemma {:induction false} ToldRun(s: Sock, es: seq<Event>)
    requires Told(s)
    ensures Told(Run(s, es))
    decreases |es|
  {
    if es == [] {
    } else {
      ToldStep(s, es[0]);
      ToldRun(Step(s, es[0]), es[1..]);
    }
  }

  /** In every run the acceptor is told of the close at most once, not before it, and
      exactly once of a socket that nobody has asked to close. */
  lemma ToldOnce(counter: nat, es: seq<Event>)
    ensures var s := Run(Fresh(counter), es);
            && s.passive <= 1 && (s.open ==> s.passive == 0)
            && (!s.open && !s.closing ==> s.passive == 1)
  {
    ToldRun(Fresh(counter), es);
  }

  /** A send fails while the socket is open. */
  ghost predicate SendFails(s: Sock, es: seq<Event>)
    decreases |es|
  {
    es != []
    && ((Enabled(s, es[0]) && es[0] == SendDone(SendFailed) && s.open) || SendFails(Step(s, es[0]), es[1..]))
  }

  lemma ToldStays(s: Sock, e: Event)
    requires Told(s) && s.closing
    ensures Step(s, e).closing
    ensures !(Enabled(s, e) && e == SendDone(SendFailed) && s.open) ==> Step(s, e).passive == s.passive
    ensures Enabled(s, e) && e == SendDone(SendFailed) && s.open ==>
              !Step(s, e).open && Step(s, e).passive == s.passive + 1
    ensures !s.open ==> !Step(s, e).open
  {
  }

  lemma {:induction false} ClosedNoSend(s: Sock, es: seq<Event>)
    requires !s.open
    ensures !SendFails(s, es)
    decreases |es|
  {
    if es == [] {
    } else {
      ClosedNoSend(Step(s, es[0]), es[1..]);
    }
  }

  lemma {:induction false} ClosingRun(s: Sock, es: seq<Event>)
    requires Told(s) && s.closing
    ensures Run(s, es).passive == s.passive + if SendFails(s, es) then 1 else 0
    decreases |es|
  {
    if es == [] {
    } else {
      ToldStays(s, es[0]);
      ToldStep(s, es[0]);
      ClosingRun(Step(s, es[0]), es[1..]);
      if !Step(s, es[0]).open { ClosedNoSend(Step(s, es[0]), es[1..]); }
    }
  }

  /** Closing on request tells nobody: from the close handler on, the acceptor is told
      if and only if a send fails before the socket has closed. */
  lemma RequestTellsNobody(counter: nat, es: seq<Event>, more: seq<Event>)
    requires Run(Fresh(counter), es).closing
    ensures var s := Run(Fresh(counter), es);
            Run(s, more).passive == s.passive + if SendFails(s, more) then 1 else 0
  {
    ToldRun(Fresh(counter), es);
    ClosingRun(Run(Fresh(counter), es), more);
  }
}
