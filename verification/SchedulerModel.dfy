/** The leader/follower scheduler between start and stop: a mutex-guarded FIFO, a
    condition variable, any number of workers and posters, and one reactor unit
    that carries the right to poll from worker to worker. A notify is a step of
    its own after the push it belongs to; waiting threads may wake spuriously. */
module SchedulerModel {
  type Worker = nat

  datatype Unit = Reactor | Task(id: nat)

  datatype Wpc =
    | Looping          // about to take a task
    | ToWait           // found nothing; about to test the wait predicate under the lock
    | Blocked
    | Running(id: nat)
    | Polling          // inside reactorFunc, before reactorWait returns
    | Filling          // polled batch in m_taskList
    | Splicing         // reactor unit appended to m_taskList

  datatype State = State(
    queue: seq<Unit>,
    taskList: seq<Unit>,
    workers: map<Worker, Wpc>,
    // notify calls that follow a finished push
    notifies: nat,
    // whether start has pushed the reactor unit
    started: bool,
    // history: everything pushed and popped, ids posted and ids polled
    pushed: seq<Unit>,
    popped: seq<Unit>,
    posted: seq<nat>,
    polled: seq<nat>)

  /** Start is the push of the reactor unit; without it the scheduler runs in the
      mode that has none. A worker may run before it: the workers are let go
      first. */
  datatype Event =
    | Start
    | Post(id: nat)
    | Notify(w: Worker)
    | Spurious(w: Worker)
    | Take(w: Worker)
    | Check(w: Worker)
    | Finish(w: Worker)
    | Poll(w: Worker, batch: seq<nat>)
    | Fill(w: Worker)
    | Splice(w: Worker)

  function Tasks(ids: seq<nat>): seq<Unit> {
    seq(|ids|, k requires 0 <= k < |ids| => Task(ids[k]))
  }

  predicate AnyBlocked(s: State) {
    exists w <- s.workers :: s.workers[w].Blocked?
  }

  predicate Enabled(s: State, e: Event) {
    match e
    case Start => !s.started
    case Post(_) => true
    case Notify(w) => s.notifies > 0 && w in s.workers && (AnyBlocked(s) ==> s.workers[w].Blocked?)
    case Spurious(w) => w in s.workers && s.workers[w].Blocked?
    case Take(w) => w in s.workers && s.workers[w].Looping?
    case Check(w) => w in s.workers && s.workers[w].ToWait?
    case Finish(w) => w in s.workers && s.workers[w].Running?
    case Poll(w, _) => w in s.workers && s.workers[w].Polling?
    case Fill(w) => w in s.workers && s.workers[w].Filling?
    case Splice(w) => w in s.workers && s.workers[w].Splicing?
  }

  function Move(s: State, w: Worker, pc: Wpc): State {
    s.(workers := s.workers[w := pc])
  }

  function PushAll(s: State, us: seq<Unit>): State {
    s.(queue := s.queue + us, pushed := s.pushed + us, notifies := s.notifies + 1)
  }

  function Step(s: State, e: Event): State {
    if !Enabled(s, e) then s
    else
      match e
      case Start => PushAll(s, [Reactor]).(started := true)
      case Post(id) => PushAll(s, [Task(id)]).(posted := s.posted + [id])
      case Notify(w) =>
        var s1 := s.(notifies := s.notifies - 1);
        if AnyBlocked(s) then Move(s1, w, ToWait) else s1
      case Spurious(w) => Move(s, w, ToWait)
      case Take(w) =>
        if s.queue == [] then Move(s, w, ToWait)
        else
          var u := s.queue[0];
          Move(s.(queue := s.queue[1..], popped := s.popped + [u]), w,
               if u.Reactor? then Polling else Running(u.id))
      case Check(w) => Move(s, w, if s.queue == [] then Blocked else Looping)
      case Finish(w) => Move(s, w, Looping)
      case Poll(w, batch) =>
        Move(s.(taskList := s.taskList + Tasks(batch), polled := s.polled + batch), w, Filling)
      case Fill(w) => Move(s.(taskList := s.taskList + [Reactor]), w, Splicing)
      case Splice(w) => Move(PushAll(s, s.taskList).(taskList := []), w, Looping)
  }

  function Run(s: State, es: seq<Event>): State
    decreases |es|
  {
    if es == [] then s else Run(Step(s, es[0]), es[1..])
  }

  // ---------- invariants ----------

  function Copies(us: seq<Unit>): nat {
    multiset(us)[Reactor]
  }

  /** The ids of the ordinary tasks of a list, as a multiset. */
  function Ids(us: seq<Unit>): multiset<nat> {
    if us == [] then multiset{}
    else Ids(us[..|us| - 1]) + if us[|us| - 1].Task? then multiset{us[|us| - 1].id} else multiset{}
  }

  predicate Inside(pc: Wpc) {
    pc.Polling? || pc.Filling? || pc.Splicing?
  }

  ghost predicate Insider(s: State, w: Worker) {
    w in s.workers && Inside(s.workers[w])
  }

  ghost predicate Fifo(s: State) {
    s.pushed == s.popped + s.queue
  }

  /** One reactor unit in all once it has been pushed, and m_taskList used only by
      the worker inside. */
  ghost predicate OneReactor(s: State) {
    && (forall w: Worker, v: Worker :: Insider(s, w) && Insider(s, v) ==> w == v)
    && (forall w: Worker :: Insider(s, w) ==>
          && s.started && Copies(s.queue) == 0
          && (s.workers[w].Polling? ==> s.taskList == [])
          && Copies(s.taskList) == (if s.workers[w].Splicing? then 1 else 0))
    && ((forall w: Worker :: !Insider(s, w)) ==> Copies(s.queue) == (if s.started then 1 else 0) && s.taskList == [])
  }

  ghost predicate Awake(s: State) {
    exists w: Worker :: w in s.workers && !s.workers[w].Blocked?
  }

  ghost predicate NoLostWakeup(s: State) {
    && s.workers != map[]
    && (s.queue != [] ==> s.notifies > 0 || Awake(s))
  }

  /** Every id has been pushed, or waits in m_taskList, as often as it has been
      posted or polled. */
  ghost predicate Conserved(s: State) {
    forall id: nat :: Ids(s.pushed)[id] + Ids(s.taskList)[id] == multiset(s.posted)[id] + multiset(s.polled)[id]
  }

  ghost predicate Inv(s: State) {
    Fifo(s) && NoLostWakeup(s) && Conserved(s)
  }

  /** Nothing has happened yet: the workers wait to be let go. */
  function Initial(workers: set<Worker>): State {
    State([], [], map w | w in workers :: Looping, 0, false, [], [], [], [])
  }

  lemma CopiesConcat(a: seq<Unit>, b: seq<Unit>)
    ensures Copies(a + b) == Copies(a) + Copies(b)
  {
  }

  lemma TasksCopies(ids: seq<nat>)
    ensures Copies(Tasks(ids)) == 0
  {
    assert Reactor !in Tasks(ids);
  }

  lemma {:induction false} IdsConcat(a: seq<Unit>, b: seq<Unit>)
    ensures Ids(a + b) == Ids(a) + Ids(b)
  {
    if b == [] {
      assert a + b == a;
    } else {
      var n := |b| - 1;
      assert (a + b)[..|a + b| - 1] == a + b[..n] && (a + b)[|a + b| - 1] == b[n];
      IdsConcat(a, b[..n]);
    }
  }

  lemma {:induction false} IdsTasks(ids: seq<nat>)
    ensures Ids(Tasks(ids)) == multiset(ids)
  {
    if ids == [] {
    } else {
      var n := |ids| - 1;
      assert Tasks(ids)[..n] == Tasks(ids[..n]);
      IdsTasks(ids[..n]);
      assert ids == ids[..n] + [ids[n]];
    }
  }

  lemma IdsOne(u: Unit)
    ensures Ids([u]) == if u.Task? then multiset{u.id} else multiset{}
  {
    assert [u][..0] == [];
  }

  lemma FifoStep(s: State, e: Event)
    requires Fifo(s)
    ensures Fifo(Step(s, e))
  {
    if Enabled(s, e) && e.Take? && s.queue != [] {
      assert s.queue == [s.queue[0]] + s.queue[1..];
    }
  }

  lemma WakeupStep(s: State, e: Event)
    requires NoLostWakeup(s)
    ensures NoLostWakeup(Step(s, e))
  {
    if Enabled(s, e) {
      var s' := Step(s, e);
      if e.Notify? {
        assert e.w in s'.workers && !s'.workers[e.w].Blocked?;
      } else if !e.Post? && !e.Start? {
        assert e.w in s'.workers;
      } else {
        assert s'.workers == s.workers;
      }
    }
  }

  lemma ConservedPost(s: State, id: nat)
    requires Conserved(s) && Enabled(s, Post(id))
    ensures Conserved(Step(s, Post(id)))
  {
    var s' := Step(s, Post(id));
    IdsConcat(s.pushed, [Task(id)]);
    IdsOne(Task(id));
    assert Ids(s'.pushed) == Ids(s.pushed) + multiset{id};
    assert multiset(s'.posted) == multiset(s.posted) + multiset{id};
  }

  lemma ConservedPoll(s: State, w: Worker, batch: seq<nat>)
    requires Conserved(s) && Enabled(s, Poll(w, batch))
    ensures Conserved(Step(s, Poll(w, batch)))
  {
    var s' := Step(s, Poll(w, batch));
    IdsConcat(s.taskList, Tasks(batch));
    IdsTasks(batch);
    assert multiset(s'.polled) == multiset(s.polled) + multiset(batch);
  }

  lemma ConservedSplice(s: State, w: Worker)
    requires Conserved(s) && Enabled(s, Splice(w))
    ensures Conserved(Step(s, Splice(w)))
  {
    IdsConcat(s.pushed, s.taskList);
  }

  lemma IdsReactor(us: seq<Unit>)
    ensures Ids(us + [Reactor]) == Ids(us)
  {
    IdsConcat(us, [Reactor]);
    IdsOne(Reactor);
  }

  lemma ConservedStep(s: State, e: Event)
    requires Conserved(s)
    ensures Conserved(Step(s, e))
  {
    if Enabled(s, e) {
      match e
      case Start => IdsReactor(s.pushed);
      case Post(id) => ConservedPost(s, id);
      case Poll(w, batch) => ConservedPoll(s, w, batch);
      case Fill(w) => IdsReactor(s.taskList);
      case Splice(w) => ConservedSplice(s, w);
      case _ =>
    }
  }

  lemma InsiderFrame(s: State, s': State, w: Worker)
    requires forall v: Worker :: v != w ==> (v in s'.workers <==> v in s.workers)
    requires forall v: Worker :: v != w && v in s.workers ==> s'.workers[v] == s.workers[v]
    ensures forall v: Worker :: v != w ==> Insider(s', v) == Insider(s, v)
  {
  }

  lemma TakeReactor(s: State, w: Worker)
    requires OneReactor(s) && Enabled(s, Take(w)) && s.queue != []
    ensures OneReactor(Step(s, Take(w)))
  {
    var s' := Step(s, Take(w));
    InsiderFrame(s, s', w);
    assert s.queue == [s.queue[0]] + s.queue[1..];
    CopiesConcat([s.queue[0]], s.queue[1..]);
    if s.queue[0].Reactor? {
      assert forall v: Worker :: !Insider(s, v);
    } else {
      assert Copies([s.queue[0]]) == 0;
      if forall v: Worker :: !Insider(s', v) {
        forall v: Worker ensures !Insider(s, v) { assert !Insider(s', v); }
      }
    }
  }

  lemma InsideReactor(s: State, e: Event)
    requires OneReactor(s) && Enabled(s, e) && (e.Poll? || e.Fill? || e.Splice?)
    ensures OneReactor(Step(s, e))
  {
    var s' := Step(s, e);
    InsiderFrame(s, s', e.w);
    assert Insider(s, e.w);
    match e
    case Poll(w, batch) => CopiesConcat(s.taskList, Tasks(batch)); TasksCopies(batch); assert Insider(s', w);
    case Fill(w) => CopiesConcat(s.taskList, [Reactor]); assert Insider(s', w);
    case Splice(w) => CopiesConcat(s.queue, s.taskList);
    case _ =>
  }

  lemma StartReactor(s: State)
    requires OneReactor(s) && !s.started
    ensures OneReactor(Step(s, Start))
  {
    var s' := Step(s, Start);
    CopiesConcat(s.queue, [Reactor]);
    assert forall v: Worker :: Insider(s', v) == Insider(s, v);
  }

  /** The steps that neither move the reactor unit nor enter or leave reactorFunc. */
  lemma ElsewhereReactor(s: State, e: Event)
    requires OneReactor(s) && Enabled(s, e)
    requires e.Notify? || e.Spurious? || e.Check? || e.Finish? || (e.Take? && s.queue == [])
    ensures OneReactor(Step(s, e))
  {
    var s' := Step(s, e);
    InsiderFrame(s, s', e.w);
    assert Insider(s', e.w) == Insider(s, e.w);
  }

  lemma ReactorStep(s: State, e: Event)
    requires OneReactor(s)
    ensures OneReactor(Step(s, e))
  {
    if Enabled(s, e) {
      var s' := Step(s, e);
      if e.Start? {
        StartReactor(s);
      } else if e.Post? {
        CopiesConcat(s.queue, [Task(e.id)]);
        assert forall v: Worker :: Insider(s', v) == Insider(s, v);
      } else if e.Take? && s.queue != [] {
        TakeReactor(s, e.w);
      } else if e.Poll? || e.Fill? || e.Splice? {
        InsideReactor(s, e);
      } else {
        ElsewhereReactor(s, e);
      }
    }
  }

  lemma InvStep(s: State, e: Event)
    requires Inv(s) && OneReactor(s)
    ensures Inv(Step(s, e)) && OneReactor(Step(s, e))
  {
    FifoStep(s, e);
    WakeupStep(s, e);
    ConservedStep(s, e);
    ReactorStep(s, e);
  }

  lemma {:induction false} InvRun(s: State, es: seq<Event>)
    requires Inv(s) && OneReactor(s)
    ensures Inv(Run(s, es)) && OneReactor(Run(s, es))
    decreases |es|
  {
    if es == [] {
    } else {
      InvStep(s, es[0]);
      InvRun(Step(s, es[0]), es[1..]);
    }
  }

  lemma InvInitial(ws: set<Worker>)
    requires ws != {}
    ensures Inv(Initial(ws)) && OneReactor(Initial(ws))
  {
    var w :| w in ws;
    assert w in Initial(ws).workers;
    assert forall v: Worker :: !Insider(Initial(ws), v);
  }

  // ---------- main results, for every run, with or without a reactor unit ----------

  ghost function Insiders(s: State): set<Worker> {
    set w | w in s.workers && Inside(s.workers[w])
  }

  /** Reactor token: from the push of the reactor unit on, its copies in the queue
      plus the workers inside reactorFunc are exactly one, and none before; so no two
      workers poll at once, and the unlocked m_taskList is empty whenever a worker
      enters. */
  lemma ReactorToken(ws: set<Worker>, es: seq<Event>)
    requires ws != {}
    ensures var s := Run(Initial(ws), es);
            && Copies(s.queue) + |Insiders(s)| == (if s.started then 1 else 0)
            && (forall w <- s.workers :: s.workers[w].Polling? ==> s.taskList == [])
            && (Insiders(s) == {} ==> s.taskList == [])
  {
    InvInitial(ws);
    InvRun(Initial(ws), es);
    var s := Run(Initial(ws), es);
    forall w: Worker | Insider(s, w) ensures Insiders(s) == {w} {
      forall v | v in Insiders(s) ensures v == w { assert Insider(s, v); }
    }
    forall w: Worker ensures w in Insiders(s) <==> Insider(s, w) {
    }
    assert (forall w: Worker :: !Insider(s, w)) ==> Insiders(s) == {};
    forall w <- s.workers ensures s.workers[w].Polling? ==> s.taskList == [] {
      assert s.workers[w].Polling? ==> Insider(s, w);
    }
  }

  /** The queue is a FIFO that neither loses nor duplicates: what was popped is a
      prefix of what was pushed, and posted and polled tasks have each been
      pushed once, or are still in the polling worker's list. */
  lemma QueueConserves(ws: set<Worker>, es: seq<Event>)
    requires ws != {}
    ensures var s := Run(Initial(ws), es);
            && s.pushed == s.popped + s.queue
            && forall id: nat ::
                 Ids(s.pushed)[id] + Ids(s.taskList)[id] == multiset(s.posted)[id] + multiset(s.polled)[id]
  {
    InvInitial(ws);
    InvRun(Initial(ws), es);
  }

  /** No lost wake-up, although a batch notifies only one waiter: while there is
      work, some worker is not blocked or a notify is still to come. */
  lemma WakeupNeverLost(ws: set<Worker>, es: seq<Event>)
    requires ws != {}
    ensures var s := Run(Initial(ws), es);
            s.queue != [] ==> s.notifies > 0 || exists w: Worker :: w in s.workers && !s.workers[w].Blocked?
  {
    InvInitial(ws);
    InvRun(Initial(ws), es);
  }

  ghost predicate ByWorker(es: seq<Event>, w: Worker) {
    forall e <- es :: !e.Start? && !e.Post? && !e.Spurious? && e.w == w
  }

  lemma RunCons(s: State, e: Event, es: seq<Event>)
    ensures Run(s, [e] + es) == Run(Step(s, e), es)
  {
    assert ([e] + es)[1..] == es;
  }

  lemma RunThree(s: State, a: Event, b: Event, c: Event)
    ensures Run(s, [a, b, c]) == Step(Step(Step(s, a), b), c)
  {
    assert [a] + [b, c] == [a, b, c] && [b] + [c] == [b, c] && [c] + [] == [c];
    RunCons(s, a, [b, c]);
    RunCons(Step(s, a), b, [c]);
    RunCons(Step(Step(s, a), b), c, []);
  }

  function ToGo(pc: Wpc): nat {
    match pc
    case Looping => 1
    case ToWait => 2
    case Running(_) => 2
    case Splicing => 2
    case Filling => 3
    case Polling => 4
    case Blocked => 5
  }

  function NextEvent(w: Worker, pc: Wpc): Event {
    match pc
    case Looping => Take(w)
    case ToWait => Check(w)
    case Running(_) => Finish(w)
    case Splicing => Splice(w)
    case Filling => Fill(w)
    case Polling => Poll(w, [])
    case Blocked => Notify(w)
  }

  lemma NextMoves(s: State, w: Worker)
    requires s.queue != [] && w in s.workers
    requires s.workers[w].Blocked? ==> s.notifies > 0
    ensures var s' := Step(s, NextEvent(w, s.workers[w]));
            if s.workers[w].Looping? then s'.popped == s.popped + [s.queue[0]]
            else w in s'.workers && !s'.workers[w].Blocked?
                 && ToGo(s'.workers[w]) < ToGo(s.workers[w])
                 && s'.popped == s.popped && s'.queue != [] && s'.queue[0] == s.queue[0]
  {
  }

  /** A worker that is not blocked, or that a notify can reach, gets to a task. */
  lemma ReachesTask(s: State, w: Worker) returns (es: seq<Event>)
    requires s.queue != [] && w in s.workers
    requires s.workers[w].Blocked? ==> s.notifies > 0
    ensures |es| <= ToGo(s.workers[w]) && ByWorker(es, w)
    ensures Run(s, es).popped == s.popped + [s.queue[0]]
    decreases ToGo(s.workers[w])
  {
    var e := NextEvent(w, s.workers[w]);
    NextMoves(s, w);
    var rest := [];
    if !s.workers[w].Looping? {
      rest := ReachesTask(Step(s, e), w);
    }
    es := [e] + rest;
    RunCons(s, e, rest);
  }

  lemma SomeWorker(s: State) returns (w: Worker)
    requires NoLostWakeup(s) && s.queue != []
    ensures w in s.workers && (s.workers[w].Blocked? ==> s.notifies > 0)
  {
    if v: Worker :| v in s.workers && !s.workers[v].Blocked? {
      w := v;
    } else {
      w :| w in s.workers;
    }
  }

  /** Progress: whenever there is work, one worker (woken by the outstanding
      notify if need be) can take the oldest task within five steps. */
  lemma WorkIsReached(ws: set<Worker>, es: seq<Event>) returns (w: Worker, more: seq<Event>)
    requires ws != {} && Run(Initial(ws), es).queue != []
    ensures var s := Run(Initial(ws), es);
            |more| <= 5 && ByWorker(more, w) && Run(s, more).popped == s.popped + [s.queue[0]]
  {
    InvInitial(ws);
    InvRun(Initial(ws), es);
    w := SomeWorker(Run(Initial(ws), es));
    more := ReachesTask(Run(Initial(ws), es), w);
  }

  /** A worker that finds nothing to do blocks, unless work has come in meanwhile. */
  lemma IdleBlocks(s: State, w: Worker)
    requires w in s.workers && s.workers[w].Looping? && s.queue == []
    ensures var t := Run(s, [Take(w), Check(w)]);
            t.workers == s.workers[w := Blocked] && t.queue == [] && t.popped == s.popped
    ensures var t := Run(s, [Take(w), Post(0), Check(w)]);
            t.workers == s.workers[w := Looping]
  {
    RunThree(s, Take(w), Post(0), Check(w));
    assert [Take(w)] + [Check(w)] == [Take(w), Check(w)] && [Check(w)] + [] == [Check(w)];
    RunCons(s, Take(w), [Check(w)]);
    RunCons(Step(s, Take(w)), Check(w), []);
  }
}
