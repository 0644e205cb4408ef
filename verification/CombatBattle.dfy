/** Whole battles: what every turn keeps, how a battle ends, and whose turn it is. */
module CombatBattle {
  import opened Arithmetic
  import opened Wrappers
  import opened CombatModel
  import opened CombatTheorems

  ghost predicate BothAlive(us: seq<Fighter>) {
    !AllDead(us, 1) && !AllDead(us, 2)
  }

  // ---------- one turn ----------

  /** Only a unit that moves becomes ready. */
  lemma ReadyMoves(us: seq<Fighter>, bar: nat, i: nat)
    requires Scoped(bar, us) && MinTicks(us, bar) < INVALID_TICKS
    requires i < |us| && ReadyUnit(Mid(bar, us)[i], bar)
    ensures Moves(us[i])
  {
    RunExact(us, bar);
    AdvanceTotal(us[i], bar, MinTicks(us, bar));
    assert us[i] in us;
  }

  /** A camp that is not all dead still has somebody alive after the run. */
  lemma Survivor(us: seq<Fighter>, bar: nat, camp: nat) returns (x: nat)
    requires !AllDead(us, camp)
    ensures x < |us| && Alive(us[x]) && Mid(bar, us)[x].camp == camp && Alive(Mid(bar, us)[x])
  {
    AllDeadExactly(us, camp);
    var f :| f in us && f.camp == camp && Alive(f);
    x :| 0 <= x < |us| && us[x] == f;
    AdvanceTotal(f, bar, MinTicks(us, bar));
  }

  /** Whenever the run finds a tick count there is an operating unit, one that
      moves; it has somebody to strike while both camps are alive. */
  lemma TurnExists(bar: nat, us: seq<Fighter>) returns (i: nat, o: Option<nat>)
    requires Scoped(bar, us) && MinTicks(us, bar) < INVALID_TICKS
    ensures var mid := Mid(bar, us);
            && i < |mid| == |us| && Pick(mid, bar) == Some(i) && ReadyUnit(mid[i], bar) && Moves(us[i])
            && Aimed(mid, i, o) && (BothAlive(us) ==> o.Some?)
  {
    var mid := Mid(bar, us);
    RunExact(us, bar);
    PickIsGreatest(mid, bar);
    i := Pick(mid, bar).value;
    ReadyMoves(us, bar, i);
    if j: nat :| Aims(mid, i, j) {
      o := Some(j);
    } else {
      o := None;
      if BothAlive(us) {
        var x := Survivor(us, bar, Enemy(mid[i].camp));
        assert Aims(mid, i, x);
      }
    }
  }

  /** A run changes nothing but the bars. */
  lemma MidSame(us: seq<Fighter>, bar: nat)
    ensures var mid := Mid(bar, us);
            forall i :: 0 <= i < |us| ==>
              mid[i].uid == us[i].uid && mid[i].camp == us[i].camp && mid[i].hp == us[i].hp
              && mid[i].atk == us[i].atk && mid[i].def == us[i].def && mid[i].speed == us[i].speed
  {
    forall i | 0 <= i < |us|
      ensures var mid := Mid(bar, us);
              mid[i].uid == us[i].uid && mid[i].camp == us[i].camp && mid[i].hp == us[i].hp
              && mid[i].atk == us[i].atk && mid[i].def == us[i].def && mid[i].speed == us[i].speed
    {
      AdvanceTotal(us[i], bar, MinTicks(us, bar));
    }
  }

  /** A unit that is ready after a run shows a full bar. */
  lemma BarBounds(us: seq<Fighter>, bar: nat, i: nat)
    requires i < |us| && ReadyUnit(Mid(bar, us)[i], bar)
    ensures Mid(bar, us)[i].bar == bar
  {
  }

  lemma ActorFacts(bar: nat, t: Turn)
    requires Scoped(bar, t.before) && TurnOk(bar, t)
    ensures t.actor < |t.before| && |t.after| == |t.before|
    ensures var m := Mid(bar, t.before)[t.actor];
            ReadyUnit(m, bar) && m.bar == bar && Moves(t.before[t.actor])
    ensures t.target.Some? ==>
              t.target.value < |t.before| && Mid(bar, t.before)[t.target.value].camp != t.before[t.actor].camp
    ensures t.after[t.actor].overflow == Mid(bar, t.before)[t.actor].overflow && t.after[t.actor].bar == 0
    ensures t.after[t.actor].hp == t.before[t.actor].hp
  {
    var mid := Mid(bar, t.before);
    MidSame(t.before, bar);
    RunExact(t.before, bar);
    PickIsGreatest(mid, bar);
    BarBounds(t.before, bar, t.actor);
    ReadyMoves(t.before, bar, t.actor);
  }

  lemma TurnFrame(bar: nat, t: Turn)
    requires TurnOk(bar, t)
    ensures |t.after| == |t.before|
    ensures forall i :: 0 <= i < |t.before| ==>
              var a, m := t.after[i], Mid(bar, t.before)[i];
              a.uid == m.uid && a.camp == m.camp && a.atk == m.atk && a.def == m.def && a.speed == m.speed
              && (i != t.actor ==> Total(a) == Total(m)) && (t.target != Some(i) ==> a.hp == m.hp)
  {
  }

  /** One round. The speed bar aside, at most one unit changes: an enemy of the
      operating unit, whose hit points drop by the whole part of 1.5 times the attack
      less the defence, or to zero; with both camps alive there is one. The operating
      unit moves, survives, and restarts with its excess, below its own speed. */
  lemma TurnExact(bar: nat, t: Turn)
    requires Scoped(bar, t.before) && TurnOk(bar, t)
    ensures |t.after| == |t.before| && t.actor < |t.before| && Moves(t.before[t.actor])
    ensures Alive(t.after[t.actor]) && Total(t.after[t.actor]) < t.before[t.actor].speed
    ensures Total(t.after[t.actor]) == Total(Mid(bar, t.before)[t.actor]) - bar
    ensures BothAlive(t.before) ==> t.target.Some?
    ensures t.target.Some? ==>
              var j := t.target.value;
              && j < |t.before|
              && var a, d := t.before[t.actor], t.before[j];
                 var strike := (a.atk as real * 1.5).Floor - d.def;
                 d.camp == (if a.camp == 1 then 2 else 1) && Alive(d)
                 && t.after[j].hp == (if strike <= 0 then d.hp else if strike < d.hp then d.hp - strike else 0)
    ensures forall i :: 0 <= i < |t.before| && t.target != Some(i) ==> t.after[i].hp == t.before[i].hp
    ensures forall i :: 0 <= i < |t.before| && i != t.actor ==> Total(t.after[i]) == Total(Mid(bar, t.before)[i])
  {
    MidSame(t.before, bar);
    ActorFacts(bar, t);
    TurnFrame(bar, t);
    RunExact(t.before, bar);
    var mid := Mid(bar, t.before);
    assert mid[t.actor] in mid;
    if t.target.Some? {
      var j := t.target.value;
      assert t.after[j].hp == SafeSub(mid[j].hp, Damage(mid[t.actor], mid[j]));
      DamageIs(t.before[t.actor], t.before[j]);
    } else if BothAlive(t.before) {
      assert t.before[t.actor] in t.before;
      var x := Survivor(t.before, bar, Enemy(mid[t.actor].camp));
      assert Aims(mid, t.actor, x);
    }
  }

  /** The same with the product rounded to single precision, whatever the rounding. */
  lemma TurnInSinglePrecision(bar: nat, t: Turn, r: real)
    requires Scoped(bar, t.before) && TurnOk(bar, t) && t.target.Some?
    requires t.actor < |t.before| && t.before[t.actor].atk <= 5592405 && Rounds(t.before[t.actor].atk as real * 1.5, r)
    ensures var j := t.target.value;
            && j < |t.before| == |t.after|
            && var strike := r.Floor - t.before[j].def;
               t.after[j].hp == (if strike <= 0 then t.before[j].hp
                                 else if strike < t.before[j].hp then t.before[j].hp - strike else 0)
  {
    TurnExact(bar, t);
    AttackIsExact(t.before[t.actor].atk, r);
  }

  ghost predicate Lasting(us: seq<Fighter>, vs: seq<Fighter>) {
    && |us| == |vs|
    && forall i :: 0 <= i < |us| ==>
         us[i].uid == vs[i].uid && us[i].camp == vs[i].camp && us[i].atk == vs[i].atk
         && us[i].def == vs[i].def && us[i].speed == vs[i].speed && vs[i].hp <= us[i].hp
  }

  /** A round changes no fixed attribute and brings nobody back to life. */
  lemma TurnAttributes(bar: nat, t: Turn)
    requires Scoped(bar, t.before) && TurnOk(bar, t)
    ensures Lasting(t.before, t.after)
  {
    MidSame(t.before, bar);
    TurnFrame(bar, t);
    TurnExact(bar, t);
  }

  lemma TurnKeepsScope(bar: nat, t: Turn)
    requires Scoped(bar, t.before) && TurnOk(bar, t)
    ensures Scoped(bar, t.after)
  {
    var mid := Mid(bar, t.before);
    RunExact(t.before, bar);
    TurnFrame(bar, t);
    TurnExact(bar, t);
    MidSame(t.before, bar);
    forall i | 0 <= i < |mid| && Alive(t.after[i])
      ensures t.after[i].speed <= bar && Total(t.after[i]) < bar + t.after[i].speed
    {
      assert mid[i] in mid;
      assert t.after[i].hp <= mid[i].hp;
    }
    ScopedLike(bar, mid, t.after);
  }

  // ---------- whole battles ----------

  lemma NotJudged(us: seq<Fighter>, round: nat)
    requires Judge(us, round) == None
    ensures BothAlive(us) && round < MAX_ROUND
  {
  }

  /** Every turn of a battle follows on the one before, and the turns before it are
      a battle of their own. */
  lemma {:induction false} TurnAt(bar: nat, start: seq<Fighter>, h: seq<Turn>, k: nat)
    requires Battle(bar, start, h) && k < |h|
    ensures TurnOk(bar, h[k]) && (k > 0 ==> Judge(h[k].before, k) == None)
    ensures Battle(bar, start, h[..k]) && h[k].before == Now(start, h[..k])
    decreases |h|
  {
    hide TurnOk;
    hide Judge;
    if k == |h| - 1 {
    } else {
      TurnAt(bar, start, h[..|h| - 1], k);
      assert h[..|h| - 1][..k] == h[..k];
    }
  }

  /** However many rounds have been played, the units are in scope, and they are
      the ones the fight started with. */
  lemma {:induction false} BattleScoped(bar: nat, start: seq<Fighter>, h: seq<Turn>)
    requires Battle(bar, start, h)
    ensures Scoped(bar, start) && Scoped(bar, Now(start, h)) && Lasting(start, Now(start, h))
  {
    if h == [] {
    } else {
      var t := h[|h| - 1];
      BattleScoped(bar, start, h[..|h| - 1]);
      TurnKeepsScope(bar, t);
      TurnAttributes(bar, t);
    }
  }

  /** Every turn of a battle starts and ends in scope, from the second on with both
      camps alive. */
  lemma TurnScoped(bar: nat, start: seq<Fighter>, h: seq<Turn>, k: nat)
    requires Battle(bar, start, h) && k < |h|
    ensures TurnOk(bar, h[k]) && Scoped(bar, h[k].before) && |h[k].before| == |start|
    ensures Scoped(bar, h[k].after) && |h[k].after| == |start|
    ensures k > 0 ==> BothAlive(h[k].before)
  {
    TurnAt(bar, start, h, k);
    BattleScoped(bar, start, h[..k]);
    TurnKeepsScope(bar, h[k]);
    TurnAttributes(bar, h[k]);
    if k > 0 { NotJudged(h[k].before, k); }
  }

  /** Somebody who moves is alive after every round, the one who acted if nobody
      else: a fight that starts with a unit that moves never runs out of them. */
  lemma MoverRemains(bar: nat, start: seq<Fighter>, h: seq<Turn>)
    requires Battle(bar, start, h) && exists f <- start :: Moves(f)
    ensures exists f <- Now(start, h) :: Moves(f)
  {
    if h != [] {
      var t := h[|h| - 1];
      TurnScoped(bar, start, h, |h| - 1);
      TurnExact(bar, t);
      TurnAttributes(bar, t);
      assert Moves(t.after[t.actor]) && t.after[t.actor] in t.after;
    }
  }

  lemma NeverSlowLasts(bar: nat, us: seq<Fighter>, vs: seq<Fighter>)
    requires NeverSlow(bar, us) && Lasting(us, vs)
    ensures NeverSlow(bar, vs)
  {
    forall f <- vs | Moves(f) ensures bar <= (INVALID_TICKS - 1) * f.speed {
      var i :| 0 <= i < |vs| && vs[i] == f;
      assert us[i] in us && Moves(us[i]);
    }
  }

  /** A fight in which nobody who moves is too slow for the sentinel never stops
      for want of a tick count. */
  lemma NeverSlowNeverStuck(bar: nat, start: seq<Fighter>, h: seq<Turn>)
    requires Battle(bar, start, h) && NeverSlow(bar, start) && exists f <- start :: Moves(f)
    ensures MinTicks(Now(start, h), bar) < INVALID_TICKS
  {
    hide Battle;
    hide NeverSlow;
    BattleScoped(bar, start, h);
    MoverRemains(bar, start, h);
    NeverSlowLasts(bar, start, Now(start, h));
    NotSlowRuns(Now(start, h), bar);
  }

  /** In the exact range every run of a fight stays within 32 bits and divides
      distances below 2^24, and every attack is one that single precision keeps. */
  lemma BattleFits(bar: nat, start: seq<Fighter>, h: seq<Turn>, k: nat)
    requires Battle(bar, start, h) && Exact(bar, start) && k < |h|
    ensures forall i :: 0 <= i < |h[k].before| && Alive(h[k].before[i]) ==>
              var f := h[k].before[i];
              && Reach(f, MinTicks(h[k].before, bar)) < UINT32
              && SafeSub(bar, Total(f)) < FLOAT_EXACT && f.atk <= MAX_ATTACK
  {
    var us := h[k].before;
    TurnAt(bar, start, h, k);
    BattleScoped(bar, start, h[..k]);
    forall f <- us | Alive(f) ensures f.atk <= MAX_ATTACK {
      var i :| 0 <= i < |us| && us[i] == f;
      assert start[i] in start;
    }
    RunFits(us, bar);
  }

  /** A fight in progress: nobody has won, and the first round is played anyway. */
  ghost predicate Running(bar: nat, start: seq<Fighter>, h: seq<Turn>) {
    Battle(bar, start, h) && (h != [] ==> Judge(Now(start, h), |h|) == None)
  }

  /** The run finds no tick count: the case in which the operating unit is null. */
  predicate Stuck(bar: nat, us: seq<Fighter>) {
    MinTicks(us, bar) == INVALID_TICKS
  }

  /** The speed bar can run, and unit i is the one to act then. */
  ghost predicate ToAct(bar: nat, us: seq<Fighter>, i: nat) {
    !Stuck(bar, us) && Pick(Mid(bar, us), bar) == Some(i) && i < |us|
  }

  /** The units as unit i has struck its target. */
  function Struck(bar: nat, us: seq<Fighter>, i: nat, o: Option<nat>): seq<Fighter>
    requires i < |us| && (o.Some? ==> o.value < |us|)
  {
    Hurt(Mid(bar, us), i, o)
  }

  /** A fight in progress that is not stuck has a unit to act. */
  lemma SomeoneActs(bar: nat, start: seq<Fighter>, h: seq<Turn>) returns (i: nat, o: Option<nat>)
    requires Running(bar, start, h) && !Stuck(bar, Now(start, h))
    ensures ToAct(bar, Now(start, h), i) && Aimed(Mid(bar, Now(start, h)), i, o)
  {
    var us := Now(start, h);
    BattleScoped(bar, start, h);
    i, o := TurnExists(bar, us);
  }

  lemma RunningRounds(bar: nat, start: seq<Fighter>, h: seq<Turn>)
    requires Running(bar, start, h)
    ensures |h| < MAX_ROUND
  {
    if h != [] { NotJudged(Now(start, h), |h|); }
  }

  /** A round played out extends the battle by one turn. */
  lemma BattleGrows(bar: nat, start: seq<Fighter>, h: seq<Turn>, i: nat, o: Option<nat>, t: Turn)
    requires Running(bar, start, h)
    requires ToAct(bar, Now(start, h), i) && Aimed(Mid(bar, Now(start, h)), i, o)
    requires t == Turn(Now(start, h), i, o, Rested(Struck(bar, Now(start, h), i, o), i))
    ensures Battle(bar, start, h + [t]) && Now(start, h + [t]) == t.after
  {
    assert (h + [t])[..|h|] == h;
  }

  /** Every fight in progress can be played on until it is decided or stuck, which
      happens within the 99 rounds. */
  lemma {:induction false} BattleEnds(bar: nat, start: seq<Fighter>, h: seq<Turn>) returns (g: seq<Turn>)
    requires Running(bar, start, h)
    ensures h <= g && |g| <= 99 && Battle(bar, start, g)
    ensures (g != [] && Judge(Now(start, g), |g|).Some?) || (Running(bar, start, g) && Stuck(bar, Now(start, g)))
    decreases MAX_ROUND - |h|
  {
    hide Battle;
    hide ToAct;
    hide Stuck;
    var us := Now(start, h);
    RunningRounds(bar, start, h);
    g := h;
    if !Stuck(bar, us) {
      var i, o := SomeoneActs(bar, start, h);
      var t := Turn(us, i, o, Rested(Struck(bar, us, i, o), i));
      BattleGrows(bar, start, h, i, o, t);
      g := h + [t];
      if Judge(Now(start, g), |g|) == None {
        RunningRounds(bar, start, g);
        g := BattleEnds(bar, start, g);
      }
    }
  }

  /** The last to act is alive. */
  lemma LastLives(bar: nat, start: seq<Fighter>, h: seq<Turn>) returns (i: nat)
    requires Battle(bar, start, h) && h != []
    ensures i < |Now(start, h)| && Alive(Now(start, h)[i])
  {
    TurnScoped(bar, start, h, |h| - 1);
    TurnExact(bar, h[|h| - 1]);
    i := h[|h| - 1].actor;
  }

  lemma SomeCampLives(bar: nat, start: seq<Fighter>, h: seq<Turn>)
    requires Battle(bar, start, h) && h != []
    requires forall f <- start :: f.camp == 1 || f.camp == 2
    ensures !(AllDead(Now(start, h), 1) && AllDead(Now(start, h), 2))
  {
    hide Battle;
    hide Scoped;
    hide AllDead;
    var i := LastLives(bar, start, h);
    BattleScoped(bar, start, h);
    var us := Now(start, h);
    assert us[i] in us && start[i] in start;
    AllDeadExactly(us, us[i].camp);
  }

  /** How a battle stands after its last turn: at most 99 rounds have been played,
      and the verdict says which of the camps 1 and 2 is dead, or that time ran out
      with both alive. When all units are of these camps, one has a survivor. */
  lemma VerdictExact(bar: nat, start: seq<Fighter>, h: seq<Turn>)
    requires Battle(bar, start, h) && h != []
    ensures var us := Now(start, h);
            && 1 <= |h| <= 99
            && (Judge(us, |h|) == Some(Camp1Defeat) <==> AllDead(us, 1) && !AllDead(us, 2))
            && (Judge(us, |h|) == Some(Camp2Defeat) <==> AllDead(us, 2) && !AllDead(us, 1))
            && (Judge(us, |h|) == Some(AllDefeat) <==> AllDead(us, 1) && AllDead(us, 2))
            && (Judge(us, |h|) == Some(Timeout) <==> BothAlive(us) && |h| == 99)
            && ((forall f <- start :: f.camp == 1 || f.camp == 2) ==> !(AllDead(us, 1) && AllDead(us, 2)))
  {
    var n := |h| - 1;
    TurnAt(bar, start, h, n);
    hide TurnOk;
    hide Battle;
    if n > 0 { NotJudged(h[n].before, n); }
    if forall f <- start :: f.camp == 1 || f.camp == 2 { SomeCampLives(bar, start, h); }
  }

  lemma StillDead(us: seq<Fighter>, vs: seq<Fighter>, camp: nat)
    requires Lasting(us, vs) && AllDead(us, camp)
    ensures AllDead(vs, camp)
  {
    AllDeadExactly(us, camp);
    AllDeadExactly(vs, camp);
    forall f <- vs | f.camp == camp ensures !Alive(f) {
      var i :| 0 <= i < |vs| && vs[i] == f;
      assert us[i] in us;
    }
  }

  /** Without living units in both of the camps 1 and 2 a fight is over after its
      first round. */
  lemma NoEnemyOneRound(bar: nat, start: seq<Fighter>, h: seq<Turn>)
    requires Battle(bar, start, h) && !BothAlive(start)
    ensures |h| <= 1
  {
    if |h| > 1 {
      TurnAt(bar, start, h, 1);
      TurnScoped(bar, start, h, 1);
      BattleScoped(bar, start, h[..1]);
      StillDead(start, h[1].before, if AllDead(start, 1) then 1 else 2);
    }
  }

  lemma SameTurn(bar: nat, t: Turn, u: Turn)
    requires TurnOk(bar, t) && TurnOk(bar, u) && t.before == u.before && t.target == u.target
    ensures t == u
  {
  }

  /** The targets are all that is left to chance: two fights from the same start in
      which they agree take the same turns. */
  lemma {:induction false} SameTurns(bar: nat, start: seq<Fighter>, g: seq<Turn>, h: seq<Turn>, n: nat)
    requires Battle(bar, start, g) && Battle(bar, start, h) && n <= |g| && n <= |h|
    requires forall k :: 0 <= k < n ==> g[k].target == h[k].target
    ensures g[..n] == h[..n]
    decreases n
  {
    hide Battle;
    hide TurnOk;
    hide Now;
    if n == 0 {
    } else {
      var m := n - 1;
      SameTurns(bar, start, g, h, m);
      TurnAt(bar, start, g, m);
      TurnAt(bar, start, h, m);
      SameTurn(bar, g[m], h[m]);
      assert g[..n] == g[..m] + [g[m]] && h[..n] == h[..m] + [h[m]];
    }
  }

  /** A fight played until it is decided or stuck, and a stuck one with the same
      targets as far as both go, are the same. */
  lemma SameStop(bar: nat, start: seq<Fighter>, g: seq<Turn>, h: seq<Turn>)
    requires Battle(bar, start, g)
    requires (g != [] && Judge(Now(start, g), |g|).Some?) || Stuck(bar, Now(start, g))
    requires Running(bar, start, h) && Stuck(bar, Now(start, h))
    requires forall k :: 0 <= k < |g| && k < |h| ==> g[k].target == h[k].target
    ensures g == h
  {
    var n := if |g| < |h| then |g| else |h|;
    SameTurns(bar, start, g, h, n);
    if |g| < |h| { TurnAt(bar, start, h, n); }
    if |h| < |g| { TurnAt(bar, start, g, n); }
    hide Battle;
    assert g[..n] == h[..n];
    assert |g| <= |h| ==> g[..n] == g;
    assert |h| <= |g| ==> h[..n] == h;
  }

  // ---------- whose turn it is ----------

  /** The units that could act in a turn. */
  ghost function ReadySet(bar: nat, t: Turn): set<nat> {
    set i | 0 <= i < |t.before| && ReadyUnit(Mid(bar, t.before)[i], bar)
  }

  /** Those of them that are left, and alive, when the turn is over. */
  ghost function LeftOver(bar: nat, t: Turn): set<nat> {
    set i | i in ReadySet(bar, t) && i != t.actor && i < |t.after| && Alive(t.after[i])
  }

  lemma NoTicksWhileReady(us: seq<Fighter>, bar: nat, i: nat)
    requires Scoped(bar, us) && i < |us| && ReadyUnit(us[i], bar)
    ensures MinTicks(us, bar) == 0
    ensures forall x :: 0 <= x < |us| ==>
              Total(Mid(bar, us)[x]) == Total(us[x]) && Alive(Mid(bar, us)[x]) == Alive(us[x])
  {
    assert us[i] in us;
    MinTicksBound(us, bar);
    TicksLeast(us[i], bar, 0);
    forall x | 0 <= x < |us|
      ensures Total(Mid(bar, us)[x]) == Total(us[x]) && Alive(Mid(bar, us)[x]) == Alive(us[x])
    {
      AdvanceTotal(us[x], bar, 0);
    }
  }

  /** The unit that has acted is not ready any more. */
  lemma ReadyBar(bar: nat, t: Turn)
    requires Scoped(bar, t.before) && TurnOk(bar, t)
    ensures t.actor < |t.after| && Total(t.after[t.actor]) < bar
  {
    TurnExact(bar, t);
    ActorFacts(bar, t);
    var us, i := t.before, t.actor;
    RunExact(us, bar);
    assert us[i] in us;
  }

  /** After a turn, the units whose total has reached the bar are those left over. */
  lemma LeftOrNot(bar: nat, t: Turn, x: nat)
    requires Scoped(bar, t.before) && TurnOk(bar, t) && x < |t.before|
    ensures x < |t.after| && (ReadyUnit(t.after[x], bar) <==> x in LeftOver(bar, t))
  {
    TurnExact(bar, t);
    MidSame(t.before, bar);
    RunExact(t.before, bar);
    TurnAttributes(bar, t);
    assert t.before[x] in t.before;
    ReadyBar(bar, t);
  }

  /** While someone is left over the bar does not move, so the units ready in the
      next turn are exactly the ones left over. */
  lemma NextReady(bar: nat, t: Turn, u: Turn)
    requires Scoped(bar, t.before) && TurnOk(bar, t) && Scoped(bar, t.after)
    requires u.before == t.after && |t.after| == |t.before| && LeftOver(bar, t) != {}
    ensures ReadySet(bar, u) == LeftOver(bar, t)
  {
    var us := t.after;
    var i :| i in LeftOver(bar, t);
    LeftOrNot(bar, t, i);
    NoTicksWhileReady(us, bar, i);
    forall x | 0 <= x < |us| ensures x in ReadySet(bar, u) <==> x in LeftOver(bar, t) {
      LeftOrNot(bar, t, x);
    }
  }

  lemma SubsetSize(a: set<nat>, b: set<nat>)
    requires a <= b
    ensures |a| <= |b|
  {
    assert b == a + (b - a);
  }

  lemma ActorReady(bar: nat, t: Turn)
    requires Scoped(bar, t.before) && TurnOk(bar, t)
    ensures t.actor in ReadySet(bar, t)
    ensures LeftOver(bar, t) <= ReadySet(bar, t) - {t.actor}
    ensures |LeftOver(bar, t)| < |ReadySet(bar, t)|
  {
    ActorFacts(bar, t);
    SubsetSize(LeftOver(bar, t), ReadySet(bar, t) - {t.actor});
  }

  lemma SubsetTwice(a: set<nat>, b: set<nat>, x: nat, c: set<nat>)
    requires a <= b - {x} && b <= c
    ensures a <= c
  {
  }

  /** A unit that is ready and neither acts nor dies is ready again, among fewer. */
  lemma WaitStep(bar: nat, start: seq<Fighter>, h: seq<Turn>, j: nat, p: nat)
    requires Battle(bar, start, h) && p + 1 < |h|
    requires j in ReadySet(bar, h[p]) && h[p].actor != j && j < |h[p].after| && Alive(h[p].after[j])
    ensures j in ReadySet(bar, h[p + 1])
    ensures ReadySet(bar, h[p + 1]) <= ReadySet(bar, h[p]) - {h[p].actor}
    ensures |ReadySet(bar, h[p + 1])| < |ReadySet(bar, h[p])|
  {
    TurnScoped(bar, start, h, p);
    TurnAt(bar, start, h, p + 1);
    ActorReady(bar, h[p]);
    assert j in LeftOver(bar, h[p]);
    assert h[..p + 1][p] == h[p];
    NextReady(bar, h[p], h[p + 1]);
  }

  /** Bounded fairness: a ready unit acts, dies, or sees the battle end within as
      many rounds as there are ready units. */
  lemma {:induction false} ReadyActsSoon(bar: nat, start: seq<Fighter>, h: seq<Turn>, k: nat, i: nat) returns (m: nat)
    requires Battle(bar, start, h)
    requires k < |h| && i in ReadySet(bar, h[k])
    ensures k <= m < k + |ReadySet(bar, h[k])|
    ensures m < |h| ==> i < |h[m].after| && (h[m].actor == i || !Alive(h[m].after[i]))
    decreases |ReadySet(bar, h[k])|
  {
    TurnScoped(bar, start, h, k);
    ActorReady(bar, h[k]);
    hide Battle;
    m := k;
    if h[k].actor != i && i < |h[k].after| && Alive(h[k].after[i]) {
      if k + 1 < |h| {
        WaitStep(bar, start, h, i, k);
        m := ReadyActsSoon(bar, start, h, k + 1, i);
      } else {
        m := k + 1;
        assert i in LeftOver(bar, h[k]);
        SubsetSize({i}, LeftOver(bar, h[k]));
      }
    }
  }

  /** Unit j is ready at turn k and is still waiting, alive, at turn m. */
  ghost predicate Waits(bar: nat, h: seq<Turn>, j: nat, k: nat, m: nat)
    requires k <= m < |h|
  {
    && j in ReadySet(bar, h[k])
    && forall x :: k <= x < m ==> h[x].actor != j && j < |h[x].after| && Alive(h[x].after[j])
  }

  lemma {:induction false} ReadyNests(bar: nat, start: seq<Fighter>, h: seq<Turn>, j: nat, k: nat, m: nat)
    requires Battle(bar, start, h)
    requires k < m < |h| && Waits(bar, h, j, k, m)
    ensures ReadySet(bar, h[m]) <= ReadySet(bar, h[k]) - {h[k].actor}
    ensures j in ReadySet(bar, h[m])
    decreases m
  {
    hide Battle;
    hide ReadySet;
    var p := m - 1;
    assert h[p].actor != j && j < |h[p].after| && Alive(h[p].after[j]);
    if p == k {
      WaitStep(bar, start, h, j, p);
    } else {
      ReadyNests(bar, start, h, j, k, p);
      WaitStep(bar, start, h, j, p);
      SubsetTwice(ReadySet(bar, h[m]), ReadySet(bar, h[p]), h[p].actor, ReadySet(bar, h[k]) - {h[k].actor});
    }
  }

  /** Nobody acts twice while another living ready unit waits. */
  lemma NobodyTwice(bar: nat, start: seq<Fighter>, h: seq<Turn>, j: nat, k: nat, m: nat)
    requires Battle(bar, start, h)
    requires k < m < |h| && Waits(bar, h, j, k, m)
    ensures h[k].actor != h[m].actor
  {
    hide Battle;
    ReadyNests(bar, start, h, j, k, m);
    TurnScoped(bar, start, h, m);
    ActorReady(bar, h[m]);
  }
}
