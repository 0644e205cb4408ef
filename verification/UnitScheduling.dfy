/** A safe unit and the scheduler that runs it, in one state. The unit's wake-up is
    the scheduler's post of the unit's task, and taking that task is the unit's pop;
    a worker runs the unit, or posts to it, only while it runs a task. Threads that
    are not workers may post to the unit, and other tasks share the queue. */
module UnitScheduling {
  import opened Wrappers
  import U = SafeUnitModel
  import S = SchedulerModel

  type Thread = nat

  /** `id` is the number of the unit's task. */
  datatype State = State(unit: U.State, sched: S.State, id: nat)

  datatype Event =
    | OnUnit(t: Thread, a: U.Action)
    | OnScheduler(e: S.Event)

  function Initial(workers: set<Thread>, id: nat): State {
    State(U.Initial(), S.Initial(workers), id)
  }

  /** The unit hands its task to the scheduler. */
  predicate Wakes(a: U.Action) {
    a.WakeScheduler? || a.Repost?
  }

  /** A worker can be anywhere in the task it runs, any other thread anywhere. */
  predicate InTask(s: S.State, t: Thread) {
    t in s.workers ==> s.workers[t].Running?
  }

  /** The worker that moves is outside the unit, and nobody but the unit has its task
      queued. */
  predicate Allowed(s: State, e: S.Event) {
    match e
    case Start => true
    case Post(id) => id != s.id
    case Poll(w, batch) => s.id !in batch && U.At(s.unit, w).Free?
    case _ => U.At(s.unit, e.w).Free?
  }

  predicate Enabled(s: State, e: Event) {
    match e
    case OnUnit(t, a) => !a.Pop? && InTask(s.sched, t) && U.Enabled(s.unit, t, a)
    case OnScheduler(x) => Allowed(s, x) && S.Enabled(s.sched, x)
  }

  /** A worker takes the unit's task. */
  predicate Pops(s: State, e: S.Event) {
    e.Take? && s.sched.queue != [] && s.sched.queue[0] == S.Task(s.id)
  }

  function Step(s: State, e: Event): State {
    if !Enabled(s, e) then s
    else
      match e
      case OnUnit(t, a) =>
        s.(unit := U.Step(s.unit, t, a), sched := if Wakes(a) then S.Step(s.sched, S.Post(s.id)) else s.sched)
      case OnScheduler(x) =>
        s.(unit := if Pops(s, x) then U.Step(s.unit, x.w, U.Pop) else s.unit, sched := S.Step(s.sched, x))
  }

  function Run(s: State, es: seq<Event>): State
    decreases |es|
  {
    if es == [] then s else Run(Step(s, es[0]), es[1..])
  }

  // ---------- what holds in every run ----------

  /** Copies of the unit's task in a list. */
  function Queued(us: seq<S.Unit>, id: nat): nat {
    S.Ids(us)[id]
  }

  /** The thread is in the course of doComplete. */
  predicate RunSide(pc: U.Pc) {
    match pc
    case Free => false
    case Posting(_, _, k) => k.Inside?
    case Waking(_, k) => k.Inside?
    case Leaving(_, k) => k.Inside?
    case _ => true
  }

  predicate Runs(s: State, t: Thread) {
    t in s.sched.workers && s.sched.workers[t] == S.Wpc.Running(s.id)
  }

  /** The unit's tokens are the copies of its task in the queue; the poller's list has
      none. */
  ghost predicate Counted(s: State) {
    s.unit.tokens == Queued(s.sched.queue, s.id) && Queued(s.sched.taskList, s.id) == 0
  }

  predicate PlacedAt(s: State, t: Thread) {
    && (RunSide(U.At(s.unit, t)) ==> Runs(s, t))
    && (!U.At(s.unit, t).Free? ==> InTask(s.sched, t))
  }

  /** The unit is run only by workers that have taken its task, and entered only from
      a task. */
  ghost predicate Placed(s: State) {
    forall t: Thread :: PlacedAt(s, t)
  }

  ghost predicate Inv(s: State) {
    U.Inv(s.unit) && S.Inv(s.sched) && S.OneReactor(s.sched) && Counted(s) && Placed(s)
  }

  lemma QueuedConcat(a: seq<S.Unit>, b: seq<S.Unit>, id: nat)
    ensures Queued(a + b, id) == Queued(a, id) + Queued(b, id)
  {
    S.IdsConcat(a, b);
  }

  lemma QueuedOne(u: S.Unit, id: nat)
    ensures Queued([u], id) == if u == S.Task(id) then 1 else 0
  {
    S.IdsOne(u);
  }

  lemma QueuedHead(us: seq<S.Unit>, id: nat)
    requires us != []
    ensures Queued(us, id) == Queued(us[1..], id) + if us[0] == S.Task(id) then 1 else 0
  {
    assert us == [us[0]] + us[1..];
    QueuedConcat([us[0]], us[1..], id);
    QueuedOne(us[0], id);
  }

  lemma QueuedTasks(ids: seq<nat>, id: nat)
    requires id !in ids
    ensures Queued(S.Tasks(ids), id) == 0
  {
    S.IdsTasks(ids);
  }

  /** How the scheduler's own steps treat the task of the unit. */
  lemma QueuedStep(s: State, x: S.Event)
    requires Counted(s) && Enabled(s, OnScheduler(x))
    ensures var d := S.Step(s.sched, x);
            && Queued(d.taskList, s.id) == 0
            && Queued(d.queue, s.id) + (if Pops(s, x) then 1 else 0) == Queued(s.sched.queue, s.id)
  {
    var q := s.sched;
    match x
    case Start => QueuedConcat(q.queue, [S.Reactor], s.id); QueuedOne(S.Reactor, s.id);
    case Post(id) => QueuedConcat(q.queue, [S.Task(id)], s.id); QueuedOne(S.Task(id), s.id);
    case Take(w) => if q.queue != [] { QueuedHead(q.queue, s.id); }
    case Poll(w, batch) => QueuedConcat(q.taskList, S.Tasks(batch), s.id); QueuedTasks(batch, s.id);
    case Fill(w) => QueuedConcat(q.taskList, [S.Reactor], s.id); QueuedOne(S.Reactor, s.id);
    case Splice(w) => QueuedConcat(q.queue, q.taskList, s.id);
    case _ =>
  }

  lemma SchedulerCounts(s: State, x: S.Event)
    requires Counted(s) && Enabled(s, OnScheduler(x))
    ensures Pops(s, x) ==> U.Enabled(s.unit, x.w, U.Pop)
    ensures Counted(Step(s, OnScheduler(x)))
  {
    QueuedStep(s, x);
    hide Queued;
  }

  /** A scheduler step moves one worker, who is outside the unit unless it has just
      taken the unit's task. */
  lemma SchedulerPlaces(s: State, x: S.Event)
    requires Placed(s) && Enabled(s, OnScheduler(x))
    requires Pops(s, x) ==> U.Enabled(s.unit, x.w, U.Pop)
    ensures Placed(Step(s, OnScheduler(x)))
  {
    var s' := Step(s, OnScheduler(x));
    forall t: Thread ensures PlacedAt(s', t) {
      assert PlacedAt(s, t);
    }
  }

  lemma UnitCounts(s: State, t: Thread, a: U.Action)
    requires Counted(s) && Enabled(s, OnUnit(t, a))
    ensures Counted(Step(s, OnUnit(t, a)))
  {
    QueuedConcat(s.sched.queue, [S.Task(s.id)], s.id);
    QueuedOne(S.Task(s.id), s.id);
    hide Queued;
  }

  lemma UnitPlaces(s: State, t: Thread, a: U.Action)
    requires Placed(s) && Enabled(s, OnUnit(t, a))
    ensures Placed(Step(s, OnUnit(t, a)))
  {
    var s' := Step(s, OnUnit(t, a));
    forall u: Thread ensures PlacedAt(s', u) {
      assert PlacedAt(s, u);
    }
  }

  lemma InvStep(s: State, e: Event)
    requires Inv(s)
    ensures Inv(Step(s, e))
  {
    if Enabled(s, e) {
      match e
      case OnUnit(t, a) =>
        U.InvStep(s.unit, t, a);
        S.InvStep(s.sched, S.Post(s.id));
        UnitCounts(s, t, a);
        UnitPlaces(s, t, a);
      case OnScheduler(x) =>
        SchedulerCounts(s, x);
        SchedulerPlaces(s, x);
        if Pops(s, x) { U.InvStep(s.unit, x.w, U.Pop); }
        S.InvStep(s.sched, x);
    }
  }

  lemma InvInitial(workers: set<Thread>, id: nat)
    requires workers != {}
    ensures Inv(Initial(workers, id))
  {
    U.InvInitial();
    S.InvInitial(workers);
  }

  lemma {:induction false} InvRun(s: State, es: seq<Event>)
    requires Inv(s)
    ensures Inv(Run(s, es))
    decreases |es|
  {
    if es == [] {
    } else {
      InvStep(s, es[0]);
      InvRun(Step(s, es[0]), es[1..]);
    }
  }

  // ---------- main results, for every run ----------

  /** The part of an event that the unit sees, and the part the scheduler sees. */
  function UnitPart(s: State, e: Event): seq<(Thread, U.Action)> {
    if !Enabled(s, e) then []
    else
      match e
      case OnUnit(t, a) => [(t, a)]
      case OnScheduler(x) => if Pops(s, x) then [(x.w, U.Pop)] else []
  }

  function SchedulerPart(s: State, e: Event): seq<S.Event> {
    if !Enabled(s, e) then []
    else
      match e
      case OnUnit(_, a) => if Wakes(a) then [S.Post(s.id)] else []
      case OnScheduler(x) => [x]
  }

  lemma UnitGoes(u: U.State, part: seq<(Thread, U.Action)>, rest: seq<(Thread, U.Action)>)
    requires |part| <= 1
    ensures U.Run(u, part + rest) == U.Run(if part == [] then u else U.Step(u, part[0].0, part[0].1), rest)
  {
    if part == [] {
      assert part + rest == rest;
    } else {
      U.RunHead(u, part[0].0, part[0].1, rest);
      assert part == [(part[0].0, part[0].1)];
    }
  }

  lemma SchedulerGoes(d: S.State, part: seq<S.Event>, rest: seq<S.Event>)
    requires |part| <= 1
    ensures S.Run(d, part + rest) == S.Run(if part == [] then d else S.Step(d, part[0]), rest)
  {
    if part == [] {
      assert part + rest == rest;
    } else {
      S.RunCons(d, part[0], rest);
      assert part == [part[0]];
    }
  }

  /** A run of both is a run of each: whatever holds in every run of the unit alone,
      or of the scheduler alone, holds here. */
  lemma {:induction false} RunOfEach(s: State, es: seq<Event>)
    returns (us: seq<(Thread, U.Action)>, ss: seq<S.Event>)
    ensures Run(s, es).unit == U.Run(s.unit, us) && Run(s, es).sched == S.Run(s.sched, ss)
    decreases |es|
  {
    us, ss := [], [];
    if es == [] {
    } else {
      us, ss := RunOfEach(Step(s, es[0]), es[1..]);
      UnitGoes(s.unit, UnitPart(s, es[0]), us);
      SchedulerGoes(s.sched, SchedulerPart(s, es[0]), ss);
      us, ss := UnitPart(s, es[0]) + us, SchedulerPart(s, es[0]) + ss;
    }
  }

  /** The token is the task: in every run the unit's tokens are the copies of its task
      in the scheduler, at most one, none of them in the poller's list; and whoever runs
      the unit is a worker that has taken its task. */
  lemma TokenIsTask(workers: set<Thread>, id: nat, es: seq<Event>)
    requires workers != {}
    ensures var s := Run(Initial(workers, id), es);
            && s.unit.tokens == Queued(s.sched.queue, s.id) <= 1 && Queued(s.sched.taskList, s.id) == 0
            && forall t: Thread :: RunSide(U.At(s.unit, t)) ==> Runs(s, t)
  {
    InvInitial(workers, id);
    InvRun(Initial(workers, id), es);
    var s := Run(Initial(workers, id), es);
    forall t: Thread | RunSide(U.At(s.unit, t)) ensures Runs(s, t) {
      assert PlacedAt(s, t);
    }
  }

  // ---------- the workers finish ----------

  predicate Works(s: State, e: Event) {
    match e
    case OnUnit(t, a) => !a.Acquire? && (t in s.sched.workers || s.unit.lock == Some(t))
    case OnScheduler(x) => !x.Start? && !x.Post? && !x.Spurious? && x.w in s.sched.workers
  }

  /** Steps of the workers that start nothing, and of the thread, worker or not, that
      is in the critical section of `s`. */
  ghost predicate ByWorkers(s: State, es: seq<Event>) {
    forall e <- es :: Works(s, e)
  }

  lemma RunCons(s: State, e: Event, es: seq<Event>)
    ensures Run(s, [e] + es) == Run(Step(s, e), es)
  {
    assert ([e] + es)[1..] == es;
  }

  lemma {:induction false} RunAppend(s: State, a: seq<Event>, b: seq<Event>)
    ensures Run(s, a + b) == Run(Run(s, a), b)
    decreases |a|
  {
    if a == [] {
      assert a + b == b;
    } else {
      assert (a + b)[1..] == a[1..] + b;
      RunAppend(Step(s, a[0]), a[1..], b);
    }
  }

  /** The workers stay the same. */
  lemma WorkersStay(s: State, e: Event)
    ensures Step(s, e).sched.workers.Keys == s.sched.workers.Keys
  {
  }

  /** The steps that lead on from `t` are steps of the workers, or of the same thread in
      the critical section, as seen from `s`. */
  ghost predicate Follows(s: State, t: State) {
    && t.sched.workers.Keys == s.sched.workers.Keys
    && (t.unit.lock.None? || t.unit.lock == s.unit.lock || t.unit.lock.value in s.sched.workers)
  }

  lemma ByWorkersCons(s: State, e: Event, es: seq<Event>)
    requires Works(s, e) && Follows(s, Step(s, e)) && ByWorkers(Step(s, e), es)
    ensures ByWorkers(s, [e] + es) && Run(s, [e] + es) == Run(Step(s, e), es)
  {
    RunCons(s, e, es);
    var s1 := Step(s, e);
    hide Step;
    forall x <- [e] + es ensures Works(s, x) {
      if x != e { assert x in es && Works(s1, x); }
    }
  }

  lemma ByWorkersAppend(s: State, a: seq<Event>, b: seq<Event>)
    requires ByWorkers(s, a) && Follows(s, Run(s, a)) && ByWorkers(Run(s, a), b)
    ensures ByWorkers(s, a + b) && Run(s, a + b) == Run(Run(s, a), b)
  {
    RunAppend(s, a, b);
    var s1 := Run(s, a);
    hide Run;
    forall x <- a + b ensures Works(s, x) {
      if x !in a { assert x in b && Works(s1, x); }
    }
  }

  lemma ExitPushes(u: U.State, t: Thread)
    ensures u.accepted <= U.Step(u, t, U.ExitAction(U.At(u, t))).accepted
  {
  }

  lemma ExitStep(s: State) returns (e: Event)
    requires Inv(s) && s.unit.lock.Some?
    ensures var s', t := Step(s, e), s.unit.lock.value;
            && Inv(s') && Works(s, e) && Follows(s, s') && s.unit.accepted <= s'.unit.accepted
            && (s'.unit.lock.None? || (s'.unit.lock == Some(t) && U.Exit(U.At(s'.unit, t)) < U.Exit(U.At(s.unit, t))))
  {
    var t := s.unit.lock.value;
    e := OnUnit(t, U.ExitAction(U.At(s.unit, t)));
    InvStep(s, e);
    WorkersStay(s, e);
    U.ExitStep(s.unit, t);
    assert U.Critical(U.At(s.unit, t)) && PlacedAt(s, t);
    hide Inv;
    assert Step(s, e).unit == U.Step(s.unit, t, e.a);
    ExitPushes(s.unit, t);
    hide U.Step;
  }

  lemma NoSteps(s: State)
    ensures ByWorkers(s, []) && Follows(s, s) && Run(s, []) == s
  {
  }

  /** The thread in the critical section leaves it. */
  lemma {:induction false} LeaveLock(s: State) returns (es: seq<Event>)
    requires Inv(s)
    ensures var s' := Run(s, es);
            && Inv(s') && s'.unit.lock.None? && ByWorkers(s, es) && Follows(s, s')
            && s.unit.accepted <= s'.unit.accepted
    decreases if s.unit.lock.Some? then U.Exit(U.At(s.unit, s.unit.lock.value)) + 1 else 0
  {
    hide Inv;
    hide Step;
    hide Works;
    hide ByWorkers;
    es := [];
    if s.unit.lock.None? {
      assert ByWorkers(s, []) by { NoSteps(s); }
    } else {
      var e := ExitStep(s);
      var rest := LeaveLock(Step(s, e));
      ByWorkersCons(s, e, rest);
      es := [e] + rest;
    }
  }

  predicate InCourse(pc: U.Pc) {
    pc.Swapping? || pc.Running? || pc.Executing? || pc.HandingOff? || pc.Reposting? || pc.HandedOff?
  }

  /** Nobody is in the unit but, if anybody, one worker that runs it. */
  ghost predicate Alone(u: U.State, who: Option<Thread>) {
    && (forall t: Thread :: !U.At(u, t).Free? ==> who == Some(t))
    && (who.Some? ==> InCourse(U.At(u, who.value)))
  }

  /** The next step of the worker that runs the unit. */
  function Next(pc: U.Pc): U.Action {
    match pc
    case Swapping => U.Swap
    case Running(batch) => if batch == [] then U.HandLock else U.Begin
    case Executing(_) => U.Finish
    case HandingOff => U.HandSwap
    case Reposting => U.Repost
    case _ => U.HandRelease
  }

  /** How far it is from beginning a closure. */
  function Distance(u: U.State, who: Option<Thread>): nat {
    match who
    case None => 2
    case Some(t) =>
      match U.At(u, t)
      case Executing(_) => 7
      case Running(batch) => if batch == [] then 6 else 0
      case HandingOff => 5
      case Reposting => 4
      case HandedOff => 3
      case _ => 1
  }

  lemma OthersStay(u: U.State, t: Thread, a: U.Action)
    ensures forall x: Thread :: x != t ==> U.At(U.Step(u, t, a), x) == U.At(u, x)
  {
  }

  lemma NextEnabled(u: U.State, t: Thread)
    requires U.Locking(u) && Alone(u, Some(t))
    ensures U.Enabled(u, t, Next(U.At(u, t)))
  {
    if u.lock.Some? { assert U.Critical(U.At(u, u.lock.value)); }
  }

  lemma NextAlone(u: U.State, t: Thread)
    requires Alone(u, Some(t)) && U.Enabled(u, t, Next(U.At(u, t)))
    ensures Alone(U.Step(u, t, Next(U.At(u, t))), if U.At(u, t).HandedOff? then None else Some(t))
  {
    OthersStay(u, t, Next(U.At(u, t)));
  }

  /** It begins a closure, or comes closer to beginning one. */
  lemma NextCloser(u: U.State, t: Thread)
    requires InCourse(U.At(u, t)) && U.ListsAt(u, U.At(u, t)) && U.Enabled(u, t, Next(U.At(u, t)))
    ensures var v, next := U.Step(u, t, Next(U.At(u, t))), if U.At(u, t).HandedOff? then None else Some(t);
            && v.accepted == u.accepted
            && (|v.executed| > |u.executed| || (v.executed == u.executed && Distance(v, next) < Distance(u, Some(t))))
  {
  }

  lemma NextLock(u: U.State, t: Thread)
    requires U.Enabled(u, t, Next(U.At(u, t)))
    ensures var v := U.Step(u, t, Next(U.At(u, t)));
            v.lock.None? || v.lock == u.lock || v.lock == Some(t)
  {
  }

  lemma Proceed(s: State, t: Thread) returns (e: Event, next: Option<Thread>)
    requires Inv(s) && Alone(s.unit, Some(t))
    ensures var s' := Step(s, e);
            && Inv(s') && Alone(s'.unit, next) && Works(s, e) && Follows(s, s')
            && s'.unit.accepted == s.unit.accepted
            && (|s'.unit.executed| > |s.unit.executed|
                || (s'.unit.executed == s.unit.executed && Distance(s'.unit, next) < Distance(s.unit, Some(t))))
  {
    var pc := U.At(s.unit, t);
    e := OnUnit(t, Next(pc));
    next := if pc.HandedOff? then None else Some(t);
    assert PlacedAt(s, t) && U.ListsAt(s.unit, pc);
    InvStep(s, e);
    WorkersStay(s, e);
    NextEnabled(s.unit, t);
    hide Inv;
    NextAlone(s.unit, t);
    NextCloser(s.unit, t);
    hide Alone;
    assert Step(s, e).unit == U.Step(s.unit, t, e.a);
    NextLock(s.unit, t);
    hide U.Step;
    hide Distance;
  }

  lemma QueuedIn(us: seq<S.Unit>, id: nat) returns (p: nat)
    requires Queued(us, id) > 0
    ensures p < |us| && us[p] == S.Task(id)
    decreases |us|
  {
    QueuedHead(us, id);
    p := 0;
    if us[0] != S.Task(id) {
      var q := QueuedIn(us[1..], id);
      p := q + 1;
    }
  }

  /** A worker's next step, when there is work, takes the oldest task or comes closer
      to taking it. */
  lemma NextQueue(d: S.State, w: Thread)
    requires d.queue != [] && w in d.workers && (d.workers[w].Blocked? ==> d.notifies > 0)
    ensures var d' := S.Step(d, S.NextEvent(w, d.workers[w]));
            && w in d'.workers && !d'.workers[w].Blocked?
            && if d.workers[w].Looping? then d'.queue == d.queue[1..]
               else d.queue <= d'.queue && S.ToGo(d'.workers[w]) < S.ToGo(d.workers[w])
    ensures S.Enabled(d, S.NextEvent(w, d.workers[w]))
  {
  }

  lemma PopAlone(u: U.State, w: Thread)
    requires Alone(u, None) && u.tokens > 0
    ensures var v := U.Step(u, w, U.Pop);
            && Alone(v, Some(w)) && U.At(v, w).Swapping? && v.lock == u.lock
            && v.accepted == u.accepted && v.executed == u.executed
  {
    OthersStay(u, w, U.Pop);
  }

  lemma FetchEnabled(s: State, w: Thread)
    requires Alone(s.unit, None)
    requires s.sched.queue != [] && w in s.sched.workers && (s.sched.workers[w].Blocked? ==> s.sched.notifies > 0)
    ensures var e := OnScheduler(S.NextEvent(w, s.sched.workers[w]));
            Enabled(s, e) && Works(s, e)
  {
    NextQueue(s.sched, w);
    assert U.At(s.unit, w).Free?;
    hide Alone;
    hide S.Step;
  }

  lemma NextBy(w: Thread, pc: S.Wpc)
    ensures var x := S.NextEvent(w, pc);
            !x.Start? && !x.Post? && x.w == w
  {
  }

  lemma StepOn(s: State, x: S.Event)
    requires Inv(s) && Enabled(s, OnScheduler(x))
    ensures var s' := Step(s, OnScheduler(x));
            && s'.sched == S.Step(s.sched, x) && s'.id == s.id
            && s'.unit == (if Pops(s, x) then U.Step(s.unit, x.w, U.Pop) else s.unit)
            && (Pops(s, x) ==> s.unit.tokens > 0)
  {
    SchedulerCounts(s, x);
  }

  lemma FetchGoes(s: State, w: Thread)
    requires Inv(s) && Alone(s.unit, None)
    requires s.sched.queue != [] && w in s.sched.workers && (s.sched.workers[w].Blocked? ==> s.sched.notifies > 0)
    ensures var x := S.NextEvent(w, s.sched.workers[w]);
            var s' := Step(s, OnScheduler(x));
            && Works(s, OnScheduler(x)) && s'.sched == S.Step(s.sched, x) && s'.id == s.id
            && s'.unit == (if Pops(s, x) then U.Step(s.unit, w, U.Pop) else s.unit)
            && (Pops(s, x) ==> s.unit.tokens > 0)
  {
    var x := S.NextEvent(w, s.sched.workers[w]);
    FetchEnabled(s, w);
    hide Alone;
    hide Enabled;
    hide Works;
    NextBy(w, s.sched.workers[w]);
    StepOn(s, x);
    hide *;
  }

  lemma NobodyIn(u: U.State, w: Thread)
    ensures Alone(u, None) ==> !U.At(u, w).Swapping?
  {
  }

  /** A worker that can move takes the task of the unit or comes closer to it. */
  lemma FetchStep(s: State, w: Thread, p: nat) returns (e: Event, q: nat)
    requires Inv(s) && Alone(s.unit, None)
    requires p < |s.sched.queue| && s.sched.queue[p] == S.Task(s.id)
    requires w in s.sched.workers && (s.sched.workers[w].Blocked? ==> s.sched.notifies > 0)
    ensures var s' := Step(s, e);
            && Inv(s') && Works(s, e) && Follows(s, s')
            && s'.unit.accepted == s.unit.accepted && s'.unit.executed == s.unit.executed
            && w in s'.sched.workers && !s'.sched.workers[w].Blocked?
            && if U.At(s'.unit, w).Swapping? then Alone(s'.unit, Some(w))
               else
                 && Alone(s'.unit, None) && q < |s'.sched.queue| && s'.sched.queue[q] == S.Task(s'.id)
                 && (q < p || (q == p && S.ToGo(s'.sched.workers[w]) < S.ToGo(s.sched.workers[w])))
  {
    var pc := s.sched.workers[w];
    var x := S.NextEvent(w, pc);
    e := OnScheduler(x);
    q := if pc.Looping? && p > 0 then p - 1 else p;
    FetchGoes(s, w);
    InvStep(s, e);
    WorkersStay(s, e);
    NextQueue(s.sched, w);
    hide Inv;
    hide Step;
    hide Works;
    hide Alone;
    hide S.Step;
    hide U.Step;
    if Pops(s, x) { PopAlone(s.unit, w); }
    NobodyIn(s.unit, w);
  }

  lemma {:induction false} Fetch(s: State, w: Thread, p: nat) returns (es: seq<Event>)
    requires Inv(s) && Alone(s.unit, None)
    requires p < |s.sched.queue| && s.sched.queue[p] == S.Task(s.id)
    requires w in s.sched.workers && (s.sched.workers[w].Blocked? ==> s.sched.notifies > 0)
    ensures var s' := Run(s, es);
            && Inv(s') && Alone(s'.unit, Some(w)) && U.At(s'.unit, w).Swapping? && ByWorkers(s, es) && Follows(s, s')
            && s'.unit.accepted == s.unit.accepted && s'.unit.executed == s.unit.executed
    decreases p, S.ToGo(s.sched.workers[w])
  {
    hide Inv;
    hide Alone;
    hide Step;
    hide Works;
    hide ByWorkers;
    var e, q := FetchStep(s, w, p);
    var s1 := Step(s, e);
    es := [];
    NoSteps(s1);
    if !U.At(s1.unit, w).Swapping? {
      es := Fetch(s1, w, q);
    }
    ByWorkersCons(s, e, es);
    es := [e] + es;
  }

  lemma Drained(s: State)
    requires Inv(s) && Alone(s.unit, None) && s.unit.tokens == 0
    ensures s.unit.executed == s.unit.accepted && U.Asleep(s.unit) && !s.unit.access
  {
    assert U.Asleep(s.unit);
    assert U.Balance(s.unit, []);
    assert s.unit.executed + [] + [] + [] == s.unit.executed;
  }

  lemma Queues(s: State) returns (w: Thread, p: nat)
    requires Inv(s) && s.unit.tokens > 0
    ensures p < |s.sched.queue| && s.sched.queue[p] == S.Task(s.id)
    ensures w in s.sched.workers && (s.sched.workers[w].Blocked? ==> s.sched.notifies > 0)
  {
    p := QueuedIn(s.sched.queue, s.id);
    w := S.SomeWorker(s.sched);
  }

  lemma Begun(s: State)
    requires Inv(s)
    ensures |s.unit.executed| <= |s.unit.accepted|
  {
    U.BegunFirst(s.unit);
  }

  lemma {:induction false} Work(s: State, who: Option<Thread>) returns (es: seq<Event>)
    requires Inv(s) && Alone(s.unit, who)
    ensures var s' := Run(s, es);
            && ByWorkers(s, es) && s'.unit.executed == s'.unit.accepted == s.unit.accepted
            && U.Asleep(s'.unit) && !s'.unit.access
    decreases |s.unit.accepted| - |s.unit.executed|, Distance(s.unit, who)
  {
    Begun(s);
    hide Inv;
    hide Alone;
    hide Step;
    hide Works;
    hide ByWorkers;
    NoSteps(s);
    es := [];
    if who.Some? {
      var e, next := Proceed(s, who.value);
      Begun(Step(s, e));
      var rest := Work(Step(s, e), next);
      ByWorkersCons(s, e, rest);
      es := [e] + rest;
    } else if s.unit.tokens > 0 {
      var w, p := Queues(s);
      var fetch := Fetch(s, w, p);
      var rest := Work(Run(s, fetch), Some(w));
      ByWorkersAppend(s, fetch, rest);
      es := fetch + rest;
    } else {
      Drained(s);
    }
  }

  /** From every reachable state the workers, without any further post and after the
      thread in the critical section has left it, run every accepted closure to its end
      and the unit sleeps: its task reaches a worker whatever is queued before it. */
  lemma WorkersFinish(workers: set<Thread>, id: nat, es: seq<Event>) returns (more: seq<Event>)
    requires workers != {}
    ensures var s := Run(Initial(workers, id), es);
            var s' := Run(s, more);
            && ByWorkers(s, more) && s.unit.accepted <= s'.unit.accepted == s'.unit.executed
            && U.Asleep(s'.unit) && !s'.unit.access
  {
    InvInitial(workers, id);
    InvRun(Initial(workers, id), es);
    var s := Run(Initial(workers, id), es);
    var out := LeaveLock(s);
    var s1 := Run(s, out);
    var who: Option<Thread> := None;
    if t: Thread :| U.Carrier(U.At(s1.unit, t)) {
      who := Some(t);
    }
    forall t: Thread | !U.At(s1.unit, t).Free? ensures who == Some(t) {
      assert !U.Critical(U.At(s1.unit, t));
    }
    var rest := Work(s1, who);
    ByWorkersAppend(s, out, rest);
    more := out + rest;
  }
}
