/** A safe unit shared by any number of threads, at the granularity of its lock:
    posting, cancelling, the unlocked swap, the batch, and the locked hand-off
    are separate steps that may interleave freely. Closures are opaque; while one
    runs, its thread may post again. The scheduler is reduced to the number of
    tokens of this unit in its queue. */
module SafeUnitModel {
  import opened Wrappers

  type Closure = nat
  type Thread = nat

  /** Where a thread goes back to after posting: out of the unit, or into the
      closure it is running, with the rest of the batch still to do. */
  datatype Cont = Outside | Inside(rest: seq<Closure>)

  datatype Pc =
    | Free
    | Posting(c: Closure, cancels: bool, k: Cont)  // lock held, the flag was not set
    | Waking(cancels: bool, k: Cont)               // lock held, access just set, token not yet posted
    | Leaving(cancels: bool, k: Cont)              // lock held, about to release it
    | Swapping                                     // token taken, accessList not yet swapped out
    | Running(batch: seq<Closure>)
    | Executing(rest: seq<Closure>)                // inside one closure
    | HandingOff                                   // lock held, batch done
    | Reposting                                    // lock held, more work found, token not yet posted
    | HandedOff                                    // lock held, about to release it

  datatype State = State(
    access: bool,
    cancelFlag: bool,
    lock: Option<Thread>,
    accessList: seq<Closure>,
    waitList: seq<Closure>,
    tokens: nat,
    pcs: map<Thread, Pc>,
    // history: closures accepted in lock order, closures begun, and the place
    // of the cancel callback among the accepted
    accepted: seq<Closure>,
    executed: seq<Closure>,
    cancelAt: Option<nat>)

  datatype Action =
    | Acquire(c: Closure, cancels: bool)
    | PushList
    | WakeScheduler
    | Release
    | Pop
    | Swap
    | Begin
    | Finish
    | HandLock
    | HandSwap
    | Repost
    | HandRelease

  function Initial(): State {
    State(false, false, None, [], [], 0, map[], [], [], None)
  }

  function At(s: State, t: Thread): Pc {
    if t in s.pcs then s.pcs[t] else Free
  }

  function Put(s: State, t: Thread, pc: Pc): State {
    s.(pcs := s.pcs[t := pc])
  }

  function Back(k: Cont): Pc {
    match k
    case Outside => Free
    case Inside(rest) => Executing(rest)
  }

  predicate Enabled(s: State, t: Thread, a: Action) {
    var pc := At(s, t);
    match a
    case Acquire(_, _) => (pc.Free? || pc.Executing?) && s.lock.None?
    case PushList => pc.Posting?
    case WakeScheduler => pc.Waking?
    case Release => pc.Leaving?
    case Pop => pc.Free? && s.tokens > 0
    case Swap => pc.Swapping?
    case Begin => pc.Running? && pc.batch != []
    case Finish => pc.Executing?
    case HandLock => pc == Running([]) && s.lock.None?
    case HandSwap => pc.HandingOff?
    case Repost => pc.Reposting?
    case HandRelease => pc.HandedOff?
  }

  /** The pure effect of pushing a closure under the lock: onto the list the
      next batch is taken from if the unit was asleep, else onto the wait list. */
  function Push(s: State, c: Closure): State {
    if !s.access then s.(access := true, accessList := s.accessList + [c])
    else s.(waitList := s.waitList + [c])
  }

  /** The pure effect of the hand-off: the two lists are exchanged, and the unit
      falls asleep if nothing came in. */
  function Exchange(s: State): State {
    s.(accessList := s.waitList, waitList := s.accessList, access := s.waitList != [])
  }

  function Step(s: State, t: Thread, a: Action): State {
    if !Enabled(s, t, a) then s
    else
      var pc := At(s, t);
      match a
      case Acquire(c, cancels) =>
        if s.cancelFlag then s
        else Put(s.(lock := Some(t)), t,
                 Posting(c, cancels, if pc.Executing? then Inside(pc.rest) else Outside))
      case PushList =>
        var s1 := Push(s, pc.c).(accepted := s.accepted + [pc.c],
                                 cancelAt := if pc.cancels then Some(|s.accepted|) else s.cancelAt);
        Put(s1, t, if s.access then Leaving(pc.cancels, pc.k) else Waking(pc.cancels, pc.k))
      case WakeScheduler => Put(s.(tokens := s.tokens + 1), t, Leaving(pc.cancels, pc.k))
      case Release => Put(s.(lock := None, cancelFlag := s.cancelFlag || pc.cancels), t, Back(pc.k))
      case Pop => Put(s.(tokens := s.tokens - 1), t, Swapping)
      case Swap => Put(s.(accessList := []), t, Running(s.accessList))
      case Begin => Put(s.(executed := s.executed + [pc.batch[0]]), t, Executing(pc.batch[1..]))
      case Finish => Put(s, t, Running(pc.rest))
      case HandLock => Put(s.(lock := Some(t)), t, HandingOff)
      case HandSwap => Put(Exchange(s), t, if s.waitList == [] then HandedOff else Reposting)
      case Repost => Put(s.(tokens := s.tokens + 1), t, HandedOff)
      case HandRelease => Put(s.(lock := None), t, Free)
  }

  function Run(s: State, es: seq<(Thread, Action)>): State
    decreases |es|
  {
    if es == [] then s else Run(Step(s, es[0].0, es[0].1), es[1..])
  }

  // ---------- invariants ----------

  /** The thread has taken the unit's token, or is about to hand a new one in. */
  predicate Carrier(pc: Pc) {
    match pc
    case Free => false
    case Posting(_, _, k) => k.Inside?
    case Waking(_, _) => true
    case Leaving(_, k) => k.Inside?
    case HandedOff => false
    case _ => true
  }

  predicate Critical(pc: Pc) {
    pc.Posting? || pc.Waking? || pc.Leaving? || pc.HandingOff? || pc.Reposting? || pc.HandedOff?
  }

  function Rest(pc: Pc): seq<Closure> {
    match pc
    case Posting(_, _, Inside(rest)) => rest
    case Leaving(_, Inside(rest)) => rest
    case Running(batch) => batch
    case Executing(rest) => rest
    case _ => []
  }

  ghost predicate Asleep(s: State) {
    forall t: Thread :: !Carrier(At(s, t))
  }

  /** One token in all, exactly while the unit is awake. */
  ghost predicate OneToken(s: State) {
    && (forall t: Thread :: Carrier(At(s, t)) ==> s.access && s.tokens == 0)
    && (forall t: Thread, u: Thread :: Carrier(At(s, t)) && Carrier(At(s, u)) ==> t == u)
    && s.tokens <= 1
    && (s.tokens == 1 ==> s.access)
    && (Asleep(s) && s.tokens == 0 ==> !s.access)
    && (forall t: Thread :: At(s, t).Waking? ==> At(s, t).k == Outside)
  }

  ghost predicate Locking(s: State) {
    forall t: Thread :: Critical(At(s, t)) <==> s.lock == Some(t)
  }

  ghost predicate ListsAt(s: State, pc: Pc) {
    match pc
    case Free => true
    case HandedOff => true
    case Swapping => s.accessList != []
    case Waking(_, _) => s.accessList != [] && s.waitList == []
    case Reposting => s.accessList != [] && s.waitList == []
    case Posting(_, _, k) => k.Inside? ==> s.accessList == []
    case Leaving(_, k) => k.Inside? ==> s.accessList == []
    case _ => s.accessList == []
  }

  /** Which list may hold something, by phase. */
  ghost predicate Lists(s: State) {
    && (!s.access ==> s.accessList == [] && s.waitList == [])
    && (s.tokens == 1 ==> s.accessList != [])
    && (forall t: Thread :: ListsAt(s, At(s, t)))
  }

  ghost predicate Balance(s: State, batch: seq<Closure>) {
    s.accepted == s.executed + batch + s.accessList + s.waitList
  }

  /** Begun closures, the rest of the running batch, the next batch and the wait
      list are together the accepted closures in order. */
  ghost predicate Order(s: State) {
    && (forall t: Thread :: Carrier(At(s, t)) ==> Balance(s, Rest(At(s, t))))
    && (Asleep(s) ==> Balance(s, []))
  }

  ghost predicate CancelLast(s: State) {
    && (s.cancelAt.Some? ==> |s.accepted| == s.cancelAt.value + 1)
    && (s.cancelFlag ==> s.cancelAt.Some?)
    && (forall t: Thread :: At(s, t).Posting? ==> s.cancelAt.None?)
    && (forall t: Thread :: (At(s, t).Waking? || At(s, t).Leaving?) ==>
          At(s, t).cancels == (s.cancelAt.Some? && !s.cancelFlag))
    && (s.cancelAt.Some? && !s.cancelFlag ==>
          s.lock.Some? && (At(s, s.lock.value).Waking? || At(s, s.lock.value).Leaving?))
  }

  ghost predicate Inv(s: State) {
    OneToken(s) && Locking(s) && Lists(s) && Order(s) && CancelLast(s)
  }

  lemma InvInitial()
    ensures Inv(Initial())
  {
  }

  /** The actions of a thread that posts, as opposed to one that runs the unit. */
  predicate PostSide(a: Action) {
    a.Acquire? || a.PushList? || a.WakeScheduler? || a.Release?
  }

  /** Nobody carries after a step of a thread: then nobody else did before. */
  lemma SleepStep(s: State, t: Thread, s': State)
    requires forall u: Thread :: u != t ==> At(s', u) == At(s, u)
    ensures Asleep(s') ==> !Carrier(At(s', t)) && (Carrier(At(s, t)) || Asleep(s))
  {
    if Asleep(s') && !Carrier(At(s, t)) {
      forall u: Thread ensures !Carrier(At(s, u)) {
        assert !Carrier(At(s', u));
      }
    }
  }

  lemma TokenPost(s: State, t: Thread, a: Action)
    requires Inv(s) && Enabled(s, t, a) && PostSide(a)
    ensures OneToken(Step(s, t, a))
  {
    var s' := Step(s, t, a);
    assert forall u: Thread :: u != t ==> At(s', u) == At(s, u);
    SleepStep(s, t, s');
  }

  lemma TokenRun(s: State, t: Thread, a: Action)
    requires Inv(s) && Enabled(s, t, a) && !PostSide(a)
    ensures OneToken(Step(s, t, a))
  {
    var s' := Step(s, t, a);
    assert forall u: Thread :: u != t ==> At(s', u) == At(s, u);
    SleepStep(s, t, s');
  }

  lemma LockStep(s: State, t: Thread, a: Action)
    requires Inv(s) && Enabled(s, t, a)
    ensures Locking(Step(s, t, a))
  {
    hide Order;
    hide Lists;
    hide OneToken;
    hide CancelLast;
    var s' := Step(s, t, a);
    assert forall u: Thread :: u != t ==> At(s', u) == At(s, u);
  }

  lemma ListPost(s: State, t: Thread, a: Action)
    requires Inv(s) && Enabled(s, t, a) && PostSide(a)
    ensures Lists(Step(s, t, a))
  {
    var s' := Step(s, t, a);
    assert forall u: Thread :: u != t ==> At(s', u) == At(s, u);
  }

  lemma ListRun(s: State, t: Thread, a: Action)
    requires Inv(s) && Enabled(s, t, a) && !PostSide(a)
    ensures Lists(Step(s, t, a))
  {
    var s' := Step(s, t, a);
    assert forall u: Thread :: u != t ==> At(s', u) == At(s, u);
  }

  /** A step after which one thread carries a known batch, or nobody does. */
  lemma OrderFrom(s: State, t: Thread, s': State, batch: seq<Closure>)
    requires Inv(s)
    requires forall u: Thread :: u != t ==> At(s', u) == At(s, u)
    requires Carrier(At(s, t)) || Asleep(s)
    requires Rest(At(s', t)) == batch && (Carrier(At(s', t)) || batch == [])
    requires Balance(s', batch)
    ensures Order(s')
  {
  }

  lemma OrderPush(s: State, t: Thread)
    requires Inv(s) && At(s, t).Posting?
    ensures Order(Step(s, t, PushList))
  {
    var s' := Step(s, t, PushList);
    assert forall u: Thread :: u != t ==> At(s', u) == At(s, u);
    var c := At(s, t).c;
    if !s.access {
      assert Asleep(s);
      assert s.accepted + [c] == s.executed + [] + [c] + [];
      OrderFrom(s, t, s', []);
    } else {
      assert Carrier(At(s', t)) == Carrier(At(s, t));
      forall batch | Balance(s, batch) ensures Balance(s', batch) {
        assert s.executed + batch + s.accessList + (s.waitList + [c])
            == (s.executed + batch + s.accessList + s.waitList) + [c];
      }
      if Asleep(s') {
        forall u: Thread ensures !Carrier(At(s, u)) { assert !Carrier(At(s', u)); }
        assert Balance(s, []);
      }
    }
  }

  lemma OrderSwap(s: State, t: Thread)
    requires Inv(s) && At(s, t).Swapping?
    ensures Order(Step(s, t, Swap))
  {
    var s' := Step(s, t, Swap);
    assert Balance(s, Rest(At(s, t)));
    assert s.executed + [] + s.accessList + s.waitList == s.executed + s.accessList + [] + s.waitList;
    assert forall u: Thread :: u != t ==> At(s', u) == At(s, u);
    OrderFrom(s, t, s', s.accessList);
  }

  lemma OrderBegin(s: State, t: Thread)
    requires Inv(s) && At(s, t).Running? && At(s, t).batch != []
    ensures Order(Step(s, t, Begin))
  {
    var s' := Step(s, t, Begin);
    var batch := At(s, t).batch;
    assert Balance(s, batch);
    assert s.executed + batch == (s.executed + [batch[0]]) + batch[1..];
    assert forall u: Thread :: u != t ==> At(s', u) == At(s, u);
    OrderFrom(s, t, s', batch[1..]);
  }

  lemma OrderExchange(s: State, t: Thread)
    requires Inv(s) && At(s, t).HandingOff?
    ensures Order(Step(s, t, HandSwap))
  {
    var s' := Step(s, t, HandSwap);
    assert Balance(s, Rest(At(s, t))) && ListsAt(s, At(s, t));
    assert s.executed + [] + [] + s.waitList == s.executed + [] + s.waitList + [];
    assert forall u: Thread :: u != t ==> At(s', u) == At(s, u);
    OrderFrom(s, t, s', []);
  }

  lemma OrderStep(s: State, t: Thread, a: Action)
    requires Inv(s) && Enabled(s, t, a)
    ensures Order(Step(s, t, a))
  {
    if a.PushList? {
      OrderPush(s, t);
    } else if a.Swap? {
      OrderSwap(s, t);
    } else if a.Begin? {
      OrderBegin(s, t);
    } else if a.HandSwap? {
      OrderExchange(s, t);
    } else {
      var s' := Step(s, t, a);
      assert forall u: Thread :: u != t ==> At(s', u) == At(s, u);
      assert forall batch :: Balance(s, batch) ==> Balance(s', batch);
      if Carrier(At(s', t)) { assert Carrier(At(s, t)) || Asleep(s); }
    }
  }

  lemma CancelPost(s: State, t: Thread, a: Action)
    requires Inv(s) && Enabled(s, t, a) && PostSide(a)
    ensures CancelLast(Step(s, t, a))
  {
    hide Order;
    hide Lists;
    hide OneToken;
    var s' := Step(s, t, a);
    assert forall u: Thread :: u != t ==> At(s', u) == At(s, u);
  }

  lemma CancelRun(s: State, t: Thread, a: Action)
    requires Inv(s) && Enabled(s, t, a) && !PostSide(a)
    ensures CancelLast(Step(s, t, a))
  {
    hide Order;
    hide Lists;
    hide OneToken;
    var s' := Step(s, t, a);
    assert forall u: Thread :: u != t ==> At(s', u) == At(s, u);
  }

  lemma InvStep(s: State, t: Thread, a: Action)
    requires Inv(s)
    ensures Inv(Step(s, t, a))
  {
    if Enabled(s, t, a) {
      if PostSide(a) {
        TokenPost(s, t, a);
        ListPost(s, t, a);
        CancelPost(s, t, a);
      } else {
        TokenRun(s, t, a);
        ListRun(s, t, a);
        CancelRun(s, t, a);
      }
      LockStep(s, t, a);
      OrderStep(s, t, a);
    }
  }

  lemma {:induction false} InvRun(s: State, es: seq<(Thread, Action)>)
    requires Inv(s)
    ensures Inv(Run(s, es))
    decreases |es|
  {
    if es == [] {
    } else {
      InvStep(s, es[0].0, es[0].1);
      InvRun(Step(s, es[0].0, es[0].1), es[1..]);
    }
  }

  // ---------- main results, for every interleaving ----------

  /** The closures still held by whoever runs the batch. */
  ghost function Held(s: State): seq<Closure> {
    if t: Thread :| Carrier(At(s, t)) then Rest(At(s, t)) else []
  }

  lemma BegunFirst(s: State)
    requires Inv(s)
    ensures s.accepted == s.executed + Held(s) + s.accessList + s.waitList
    ensures s.executed <= s.accepted
  {
    assert Balance(s, Held(s));
    assert s.executed + Held(s) + s.accessList + s.waitList
        == s.executed + (Held(s) + s.accessList + s.waitList);
  }

  /** Serialised FIFO execution: the closures begun so far, the rest of the
      running batch, the next batch and the wait list make up the accepted
      closures in lock order, so each one runs at most once and in turn. */
  lemma FifoOnce(es: seq<(Thread, Action)>)
    ensures var s := Run(Initial(), es);
            && s.executed <= s.accepted
            && s.accepted == s.executed + Held(s) + s.accessList + s.waitList
  {
    InvInitial();
    InvRun(Initial(), es);
    BegunFirst(Run(Initial(), es));
  }

  ghost function Carriers(s: State): set<Thread> {
    set t | t in s.pcs && Carrier(s.pcs[t])
  }

  lemma CarriersAre(s: State)
    requires OneToken(s)
    ensures s.tokens + |Carriers(s)| == if s.access then 1 else 0
  {
    forall t: Thread | Carrier(At(s, t)) ensures Carriers(s) == {t} {
      assert t in Carriers(s);
      forall u | u in Carriers(s) ensures u == t { assert Carrier(At(s, u)); }
    }
    forall u: Thread ensures u in Carriers(s) <==> Carrier(At(s, u)) {
    }
    assert Asleep(s) ==> Carriers(s) == {};
  }

  /** The thread about to swap is alone in touching the list. */
  lemma SwapsAlone(s: State)
    requires OneToken(s)
    ensures forall t: Thread, u: Thread :: At(s, t).Swapping? && u != t ==>
              !Enabled(s, u, HandSwap) && !Enabled(s, u, Swap)
              && (Enabled(s, u, PushList) ==> Step(s, u, PushList).accessList == s.accessList)
  {
  }

  /** Exclusivity without stalling: queued tokens plus threads carrying one are
      one while the unit is awake and none otherwise; no two threads are inside
      closures; the thread about to swap accessList without the lock is alone in
      touching it; and work is pending only while the unit is awake. */
  lemma Exclusive(es: seq<(Thread, Action)>)
    ensures var s := Run(Initial(), es);
            && s.tokens + |Carriers(s)| == (if s.access then 1 else 0)
            && (forall t: Thread, u: Thread :: At(s, t).Executing? && At(s, u).Executing? ==> t == u)
            && (forall t: Thread, u: Thread :: At(s, t).Swapping? && u != t ==>
                  !Enabled(s, u, HandSwap) && !Enabled(s, u, Swap)
                  && (Enabled(s, u, PushList) ==> Step(s, u, PushList).accessList == s.accessList))
            && (s.executed != s.accepted ==> s.access)
  {
    InvInitial();
    InvRun(Initial(), es);
    var s := Run(Initial(), es);
    hide Run;
    CarriersAre(s);
    SwapsAlone(s);
    if !s.access {
      assert Balance(s, []);
      assert s.executed + [] + [] + [] == s.executed;
    }
  }

  lemma FrozenStep(s: State, t: Thread, a: Action)
    requires Inv(s) && s.cancelAt.Some?
    ensures Step(s, t, a).accepted == s.accepted && Step(s, t, a).cancelAt == s.cancelAt
  {
  }

  lemma {:induction false} FrozenRun(s: State, es: seq<(Thread, Action)>)
    requires Inv(s) && s.cancelAt.Some?
    ensures Run(s, es).accepted == s.accepted && Run(s, es).cancelAt == s.cancelAt && Inv(Run(s, es))
    decreases |es|
  {
    if es == [] {
    } else {
      FrozenStep(s, es[0].0, es[0].1);
      InvStep(s, es[0].0, es[0].1);
      FrozenRun(Step(s, es[0].0, es[0].1), es[1..]);
    }
  }

  /** Cancel barrier: once a cancel callback has been accepted nothing is
      accepted after it, whatever follows; when it is begun, everything accepted
      has been begun before it, and it is begun only once. */
  lemma CancelBarrier(es: seq<(Thread, Action)>, more: seq<(Thread, Action)>)
    ensures var s := Run(Initial(), es);
            var s' := Run(s, more);
            s.cancelAt.Some? ==>
              && s'.accepted == s.accepted
              && s'.cancelAt == Some(|s'.accepted| - 1)
              && s'.executed <= s'.accepted
              && (|s'.executed| > s'.cancelAt.value ==> s'.executed == s'.accepted)
  {
    InvInitial();
    InvRun(Initial(), es);
    var s := Run(Initial(), es);
    if s.cancelAt.Some? {
      FrozenRun(s, more);
      BegunFirst(Run(s, more));
    }
  }

  lemma TwoSteps(s: State, t: Thread, a: Action, b: Action)
    ensures Run(s, [(t, a), (t, b)]) == Step(Step(s, t, a), t, b)
  {
    assert [(t, a), (t, b)][1..] == [(t, b)] && [(t, b)][1..] == [];
    assert Run(Step(s, t, a), [(t, b)]) == Run(Step(Step(s, t, a), t, b), []);
  }

  /** Until a cancel is accepted no post is refused: whoever gets the lock, from outside
      or from inside a closure, has its closure accepted next. */
  lemma PostsAreTaken(es: seq<(Thread, Action)>, t: Thread, c: Closure, cancels: bool)
    requires var s := Run(Initial(), es);
             s.cancelAt.None? && s.lock.None? && (At(s, t).Free? || At(s, t).Executing?)
    ensures var s := Run(Initial(), es);
            var s' := Run(s, [(t, Acquire(c, cancels)), (t, PushList)]);
            s'.accepted == s.accepted + [c] && s'.cancelAt == if cancels then Some(|s.accepted|) else None
  {
    InvInitial();
    InvRun(Initial(), es);
    TwoSteps(Run(Initial(), es), t, Acquire(c, cancels), PushList);
  }

  // ---------- nothing stalls ----------

  ghost predicate NoPosts(es: seq<(Thread, Action)>) {
    forall e <- es :: !e.1.Acquire?
  }

  lemma {:induction false} RunAppend(s: State, a: seq<(Thread, Action)>, b: seq<(Thread, Action)>)
    ensures Run(s, a + b) == Run(Run(s, a), b)
    decreases |a|
  {
    if a == [] {
      assert a + b == b;
    } else {
      assert (a + b)[1..] == a[1..] + b;
      RunAppend(Step(s, a[0].0, a[0].1), a[1..], b);
    }
  }

  /** The thread in the critical section can always leave it by itself. */
  function Exit(pc: Pc): nat {
    match pc
    case Posting(_, _, _) => 3
    case Waking(_, _) => 2
    case Leaving(_, _) => 1
    case HandingOff => 3
    case Reposting => 2
    case HandedOff => 1
    case _ => 0
  }

  function ExitAction(pc: Pc): Action {
    match pc
    case Posting(_, _, _) => PushList
    case Waking(_, _) => WakeScheduler
    case Leaving(_, _) => Release
    case HandingOff => HandSwap
    case Reposting => Repost
    case _ => HandRelease
  }

  lemma ExitStep(s: State, t: Thread)
    requires Inv(s) && s.lock == Some(t)
    ensures var s' := Step(s, t, ExitAction(At(s, t)));
            s'.lock.None? || (s'.lock == Some(t) && Exit(At(s', t)) < Exit(At(s, t)))
    ensures !ExitAction(At(s, t)).Acquire?
  {
    assert Critical(At(s, t));
  }

  lemma {:induction false} LeaveLock(s: State) returns (es: seq<(Thread, Action)>)
    requires Inv(s)
    ensures NoPosts(es) && Inv(Run(s, es)) && Run(s, es).lock.None?
    decreases if s.lock.Some? then Exit(At(s, s.lock.value)) + 1 else 0
  {
    es := [];
    if s.lock.None? {
    } else {
      var t := s.lock.value;
      var a := ExitAction(At(s, t));
      ExitStep(s, t);
      InvStep(s, t, a);
      var rest := LeaveLock(Step(s, t, a));
      es := [(t, a)] + rest;
      assert es[1..] == rest;
    }
  }

  /** How far the carrier is from beginning its next closure. */
  ghost function Distance(s: State, who: Option<Thread>): nat {
    match who
    case None => 2
    case Some(t) =>
      match At(s, t)
      case Executing(_) => 4
      case Running(batch) => if batch == [] then 3 else 0
      case _ => 1
  }

  lemma RunHead(s: State, t: Thread, a: Action, es: seq<(Thread, Action)>)
    ensures Run(s, [(t, a)] + es) == Run(Step(s, t, a), es)
  {
    assert ([(t, a)] + es)[1..] == es;
  }

  lemma RunCons(s: State, t: Thread, a: Action, es: seq<(Thread, Action)>)
    requires Inv(s)
    ensures Run(s, [(t, a)] + es) == Run(Step(s, t, a), es)
    ensures Inv(Step(s, t, a))
  {
    RunHead(s, t, a, es);
    InvStep(s, t, a);
  }

  lemma FinishHandOff(s: State, t: Thread) returns (es: seq<(Thread, Action)>)
    requires Inv(s) && (At(s, t).Reposting? || (At(s, t).HandedOff? && (s.access ==> s.tokens == 1)))
    ensures NoPosts(es)
    ensures var s' := Run(s, es);
            Inv(s') && s'.lock.None? && s'.accepted == s.accepted && s'.executed == s.executed && Asleep(s')
    decreases At(s, t).Reposting?
  {
    if At(s, t).Reposting? {
      RunCons(s, t, Repost, []);
      var rest := FinishHandOff(Step(s, t, Repost), t);
      RunCons(s, t, Repost, rest);
      es := [(t, Repost)] + rest;
    } else {
      RunCons(s, t, HandRelease, []);
      es := [(t, HandRelease)] + [];
      var s' := Step(s, t, HandRelease);
      assert Critical(At(s, t)) && s.lock == Some(t);
      forall u: Thread ensures !Carrier(At(s', u)) {
        if u != t { assert At(s', u) == At(s, u); }
      }
    }
  }

  /** The whole hand-off: the unit ends up asleep or with its token queued again. */
  lemma HandOff(s: State, t: Thread) returns (es: seq<(Thread, Action)>)
    requires Inv(s) && s.lock.None? && At(s, t) == Running([])
    ensures NoPosts(es)
    ensures var s' := Run(s, es);
            Inv(s') && s'.lock.None? && s'.accepted == s.accepted && s'.executed == s.executed && Asleep(s')
  {
    var s1 := Step(s, t, HandLock);
    InvStep(s, t, HandLock);
    var s2 := Step(s1, t, HandSwap);
    InvStep(s1, t, HandSwap);
    var tail := FinishHandOff(s2, t);
    es := [(t, HandLock)] + ([(t, HandSwap)] + tail);
    RunCons(s1, t, HandSwap, tail);
    RunCons(s, t, HandLock, [(t, HandSwap)] + tail);
  }

  /** The next step towards beginning a closure, with nobody in the lock. */
  lemma Advance(s: State, who: Option<Thread>) returns (es: seq<(Thread, Action)>, next: Option<Thread>)
    requires Inv(s) && s.lock.None?
    requires if who.Some? then Carrier(At(s, who.value)) else Asleep(s) && s.tokens == 1
    ensures NoPosts(es)
    ensures var s' := Run(s, es);
            && Inv(s') && s'.lock.None? && s'.accepted == s.accepted
            && (if next.Some? then Carrier(At(s', next.value)) else Asleep(s'))
            && (|s'.executed| > |s.executed| || (s'.executed == s.executed && Distance(s', next) < Distance(s, who)))
  {
    if who.None? {
      var t: Thread := 0;
      assert !Critical(At(s, t));
      InvStep(s, t, Pop);
      es, next := [(t, Pop)], Some(t);
      assert Run(s, es) == Step(s, t, Pop);
    } else {
      var t := who.value;
      var pc := At(s, t);
      assert !Critical(pc);
      if pc == Running([]) {
        es := HandOff(s, t);
        next := None;
      } else {
        var a := if pc.Swapping? then Swap else if pc.Running? then Begin else Finish;
        InvStep(s, t, a);
        es, next := [(t, a)], who;
        assert Run(s, es) == Step(s, t, a);
        assert pc.Swapping? ==> ListsAt(s, pc);
      }
    }
  }

  lemma {:induction false} Drain(s: State, who: Option<Thread>) returns (es: seq<(Thread, Action)>)
    requires Inv(s) && s.lock.None?
    requires if who.Some? then Carrier(At(s, who.value)) else Asleep(s)
    ensures NoPosts(es) && Run(s, es).accepted == s.accepted == Run(s, es).executed
    ensures Asleep(Run(s, es)) && !Run(s, es).access
    decreases |s.accepted| - |s.executed|, Distance(s, who)
  {
    es := [];
    if who.Some? || s.tokens == 1 {
      var now, next := Advance(s, who);
      var s' := Run(s, now);
      BegunFirst(s');
      var rest := Drain(s', next);
      RunAppend(s, now, rest);
      es := now + rest;
    } else {
      assert Balance(s, []);
      assert s.executed + [] + [] + [] == s.executed;
    }
  }

  /** Nothing stalls: from every reachable state the threads can, without any
      further post, run the unit until every accepted closure has been run to its
      end and the unit sleeps. */
  lemma NothingStalls(es: seq<(Thread, Action)>) returns (more: seq<(Thread, Action)>)
    ensures NoPosts(more)
    ensures var s := Run(Run(Initial(), es), more);
            s.executed == s.accepted && Asleep(s) && !s.access
  {
    InvInitial();
    InvRun(Initial(), es);
    var s := Run(Initial(), es);
    var out := LeaveLock(s);
    var s1 := Run(s, out);
    var who: Option<Thread> := None;
    if t: Thread :| Carrier(At(s1, t)) {
      who := Some(t);
    }
    var rest := Drain(s1, who);
    RunAppend(s, out, rest);
    more := out + rest;
  }

  // ---------- the critical sections as wholes ----------

  /** A post or a cancel that nobody interrupts. */
  function PostWhole(s: State, c: Closure, cancels: bool): State {
    if s.cancelFlag then s
    else
      Push(s, c).(tokens := if s.access then s.tokens else s.tokens + 1,
                  cancelFlag := cancels,
                  accepted := s.accepted + [c],
                  cancelAt := if cancels then Some(|s.accepted|) else s.cancelAt)
  }

  /** What follows the push: the scheduler is told if the unit was asleep. */
  function PostTail(t: Thread, awake: bool): seq<(Thread, Action)> {
    if awake then [(t, Release)] else [(t, WakeScheduler)] + [(t, Release)]
  }

  function PostSteps(s: State, t: Thread, c: Closure, cancels: bool): seq<(Thread, Action)> {
    [(t, Acquire(c, cancels))] + if s.cancelFlag then [] else [(t, PushList)] + PostTail(t, s.access)
  }

  /** From after the push on, when the unit was awake, and when it has to be woken. */
  lemma PostLeaves(s: State, t: Thread)
    requires At(s, t).Leaving?
    ensures Run(s, [(t, Release)])
         == s.(lock := None, cancelFlag := s.cancelFlag || At(s, t).cancels, pcs := s.pcs[t := Back(At(s, t).k)])
  {
    assert [(t, Release)] == [(t, Release)] + [];
    RunHead(s, t, Release, []);
  }

  lemma PostWakes(s: State, t: Thread)
    requires At(s, t).Waking?
    ensures Run(s, [(t, WakeScheduler)] + [(t, Release)])
         == s.(tokens := s.tokens + 1, lock := None,
               cancelFlag := s.cancelFlag || At(s, t).cancels, pcs := s.pcs[t := Back(At(s, t).k)])
  {
    var s1 := Step(s, t, WakeScheduler);
    RunHead(s, t, WakeScheduler, [(t, Release)]);
    PostLeaves(s1, t);
    assert s1.pcs[t := Back(At(s, t).k)] == s.pcs[t := Back(At(s, t).k)];
  }

  lemma PostPushes(s: State, t: Thread)
    requires At(s, t).Posting? && !s.cancelFlag
    ensures Run(s, [(t, PushList)] + PostTail(t, s.access))
         == PostWhole(s, At(s, t).c, At(s, t).cancels).(lock := None, pcs := s.pcs[t := Back(At(s, t).k)])
  {
    var s1 := Step(s, t, PushList);
    RunHead(s, t, PushList, PostTail(t, s.access));
    if s.access { PostLeaves(s1, t); } else { PostWakes(s1, t); }
    assert s1.pcs[t := Back(At(s, t).k)] == s.pcs[t := Back(At(s, t).k)];
  }

  lemma PostAcquires(s: State, t: Thread, c: Closure, cancels: bool, rest: seq<(Thread, Action)>)
    requires (At(s, t).Free? || At(s, t).Executing?) && s.lock.None? && !s.cancelFlag
    requires rest == [(t, PushList)] + PostTail(t, s.access)
    ensures Run(Step(s, t, Acquire(c, cancels)), rest) == PostWhole(s, c, cancels).(pcs := s.pcs[t := At(s, t)])
  {
    var s1 := Step(s, t, Acquire(c, cancels));
    var k := if At(s, t).Executing? then Inside(At(s, t).rest) else Outside;
    assert s1 == s.(lock := Some(t), pcs := s.pcs[t := Posting(c, cancels, k)]);
    PostPushes(s1, t);
    assert s1.pcs[t := Back(k)] == s.pcs[t := Back(k)];
  }

  /** The steps of one post, taken without interruption, have that effect, whether
      it comes from outside or from inside a closure, and also when it is refused. */
  lemma PostIsWhole(s: State, t: Thread, c: Closure, cancels: bool)
    requires (At(s, t).Free? || At(s, t).Executing?) && s.lock.None?
    ensures Run(s, PostSteps(s, t, c, cancels))
         == PostWhole(s, c, cancels).(pcs := if s.cancelFlag then s.pcs else s.pcs[t := At(s, t)])
  {
    if s.cancelFlag {
      assert PostSteps(s, t, c, cancels) == [(t, Acquire(c, cancels))] + [];
      RunHead(s, t, Acquire(c, cancels), []);
    } else {
      RunHead(s, t, Acquire(c, cancels), [(t, PushList)] + PostTail(t, s.access));
      PostAcquires(s, t, c, cancels, [(t, PushList)] + PostTail(t, s.access));
    }
  }
}
