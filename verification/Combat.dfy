/** The fight itself: set-up, loading, and the mutually recursive round phases.
    The ghost `history` records the turns, so that what is proved about battles on
    values holds of a fight that has been run. */
module Combats {
  import opened Wrappers
  import opened CombatModel
  import opened CombatTheorems
  import opened CombatBattle
  import opened CombatUnits
  import opened CombatRoster

  datatype FightStep = StepInit | StepLoading | StepRound | StepEnd
  datatype FightState = StateInit | WaitingOperate | Fighting | Playing

  class Combat {
    var step: FightStep
    var state: FightState
    var round: nat
    var battleUnits: seq<BattleUnit>
    var campUnits: seq<CampUnit>
    var result: Option<Verdict>
    var speedBar: nat
    var cur: Option<nat>

    /** Set where the original dereferences a null operating unit; the fight is
        then abandoned. */
    var crashed: bool

    ghost var start: seq<Fighter>
    ghost var history: seq<Turn>

    ghost predicate Blank()
      reads this
    {
      && step == StepInit && battleUnits == [] && campUnits == [] && round == 0 && cur == None
      && !crashed && history == []
    }

    constructor ()
      ensures Blank()
    {
      step, state, round := StepInit, StateInit, 0;
      battleUnits, campUnits, result := [], [], None;
      speedBar, cur, crashed := 0, None, false;
      start, history := [], [];
    }

    /** Units by uid, two camps by number, and every unit of one of them. */
    ghost predicate Fits()
      reads this
    {
      && Sorted(battleUnits)
      && |campUnits| == 2 && campUnits[0].camp < campUnits[1].camp
      && Housed(battleUnits, campUnits)
    }

    ghost predicate Robots()
      reads this
    {
      forall c <- campUnits :: c.kind != KIND_USER
    }

    /** The units after the turns recorded so far. */
    ghost function Present(): seq<Fighter>
      reads this
    {
      Now(start, history)
    }

    /** A fight in progress, `played` rounds of it recorded. */
    ghost predicate Ongoing(played: int)
      reads this
    {
      && Fits() && step == StepRound && !crashed
      && |history| == played < MAX_ROUND && Running(speedBar, start, history)
    }

    /** The speed bar has run in this round: either it found no tick count and there
        is no operating unit, or the operating unit is chosen from the moved units. */
    ghost predicate Picked()
      reads this, battleUnits
    {
      && Ongoing(round - 1)
      && (cur.Some? ==> cur.value < |battleUnits|)
      && if cur.None? then Stuck(speedBar, Present()) && Views(battleUnits) == Present()
         else ToAct(speedBar, Present(), cur.value) && Views(battleUnits) == Mid(speedBar, Present())
    }

    /** The camp of the unit to act. */
    function Side(): CampUnit
      requires cur.Some? && cur.value < |battleUnits| && |campUnits| == 2
      reads this
    {
      campUnits[if battleUnits[cur.value].camp == campUnits[0].camp then 0 else 1]
    }

    /** The unit to act belongs to a user who has to say what it does. */
    predicate UserActs()
      requires cur.Some? && cur.value < |battleUnits| && |campUnits| == 2
      reads this, campUnits
    {
      Side().kind == KIND_USER && !Side().auto
    }

    ghost function Uids(o: Option<nat>): seq<nat>
      reads this
    {
      if o.Some? && o.value < |battleUnits| then [battleUnits[o.value].uid] else []
    }

    /** The unit to act has been told to strike its target, if it has one. */
    ghost predicate Ordered(o: Option<nat>)
      reads this, battleUnits
    {
      && cur.Some? && cur.value < |battleUnits| && Aimed(Views(battleUnits), cur.value, o)
      && battleUnits[cur.value].skillId == NORMAL_ATTACK
      && battleUnits[cur.value].targetVec == Uids(o)
    }

    /** The round has been fought: the operating unit, if there is one, has struck. */
    ghost predicate Fought(o: Option<nat>)
      reads this, battleUnits
    {
      && Ongoing(round - 1) && state == Playing
      && (cur.Some? ==> cur.value < |battleUnits|)
      && if cur.None? then Stuck(speedBar, Present()) && Views(battleUnits) == Present()
         else
           && ToAct(speedBar, Present(), cur.value)
           && Aimed(Mid(speedBar, Present()), cur.value, o)
           && Views(battleUnits) == Struck(speedBar, Present(), cur.value, o)
    }

    /** A fight that has come to its end. */
    ghost predicate Over()
      reads this, battleUnits
    {
      && step == StepEnd && cur == None && !crashed
      && 1 <= round == |history| <= MAX_ROUND
      && Battle(speedBar, start, history)
      && Views(battleUnits) == Present()
      && result.Some? && result == Judge(Present(), round)
    }

    /** A fight that has stopped for want of an operating unit, in the state in which
        the run finds no tick count. */
    ghost predicate Broken()
      reads this, battleUnits
    {
      && crashed && step == StepRound && cur == None
      && round == |history| + 1 <= MAX_ROUND
      && Running(speedBar, start, history) && Stuck(speedBar, Present())
      && Views(battleUnits) == Present()
    }

    /** How a fight with a user in it is left: waiting for the user's operation, or
        for the user's client to have played the round. */
    ghost predicate Paused()
      reads this, battleUnits, campUnits
    {
      (Picked() && cur.Some? && UserActs() && state == WaitingOperate)
      || (exists o :: Fought(o))
    }

    /** What starting or going on with a round leads to, `h` being the turns
        recorded before. */
    ghost predicate Settled(h: seq<Turn>)
      reads this, battleUnits, campUnits
    {
      if Robots() then Over() || Broken() else Paused() && history == h
    }

    method SetCampStates(st: CampState)
      modifies campUnits`state
      ensures forall c <- campUnits :: c.state == st
    {
      var k := 0;
      while k < |campUnits|
        invariant 0 <= k <= |campUnits|
        invariant forall i :: 0 <= i < k ==> campUnits[i].state == st
      {
        campUnits[k].state := st;
        k := k + 1;
      }
    }

    method CampsAre(st: CampState) returns (b: bool)
      ensures b <==> forall c <- campUnits :: c.state == st
    {
      var k := 0;
      while k < |campUnits|
        invariant 0 <= k <= |campUnits|
        invariant forall i :: 0 <= i < k ==> campUnits[i].state == st
      {
        if campUnits[k].state != st {
          return false;
        }
        k := k + 1;
      }
      return true;
    }

    method FindCamp(camp: nat) returns (r: Option<nat>)
      ensures r.Some? ==> r.value < |campUnits| && campUnits[r.value].camp == camp
      ensures r.None? ==> forall i :: 0 <= i < |campUnits| ==> campUnits[i].camp != camp
    {
      var k := 0;
      while k < |campUnits|
        invariant 0 <= k <= |campUnits| && forall i :: 0 <= i < k ==> campUnits[i].camp != camp
      {
        if campUnits[k].camp == camp {
          return Some(k);
        }
        k := k + 1;
      }
      return None;
    }

    /** Seven times the highest speed among the living; refused when it is 0. */
    method InitSpeedBar() returns (ok: bool)
      modifies this`speedBar
      ensures ok <==> exists f <- Views(battleUnits) :: Moves(f)
      ensures ok ==> BarFor(speedBar, Views(battleUnits))
      ensures ok ==> (forall f <- Views(battleUnits) :: Alive(f) ==> 7 * f.speed <= speedBar)
                     && exists f <- Views(battleUnits) :: Alive(f) && 7 * f.speed == speedBar
      ensures !ok ==> speedBar == old(speedBar)
    {
      ghost var vs := Views(battleUnits);
      var maxSpeed: nat := 0;
      var k := 0;
      while k < |battleUnits|
        invariant 0 <= k <= |battleUnits|
        invariant forall i :: 0 <= i < k && Alive(vs[i]) ==> vs[i].speed <= maxSpeed
        invariant maxSpeed > 0 ==> exists f <- vs :: Alive(f) && f.speed == maxSpeed
      {
        if battleUnits[k].IsAlive() && maxSpeed < battleUnits[k].Speed() {
          maxSpeed := battleUnits[k].Speed();
          assert vs[k] in vs;
        }
        k := k + 1;
      }
      if maxSpeed == 0 {
        return false;
      }
      ghost var f :| f in vs && Alive(f) && f.speed == maxSpeed;
      assert Moves(f);
      speedBar := maxSpeed * BAR_FACTOR;
      return true;
    }

    method RunSpeedBar()
      requires Sorted(battleUnits) && cur == None
      modifies this`cur, battleUnits
      ensures var us := old(Views(battleUnits));
              if Stuck(speedBar, us) then Views(battleUnits) == us && cur == None
              else Views(battleUnits) == Mid(speedBar, us) && cur == Pick(Views(battleUnits), speedBar)
    {
      var least := LeastTicks(battleUnits, speedBar);
      if least == INVALID_TICKS {
        return;
      }
      cur := MoveAll(battleUnits, speedBar, least);
    }

    /** One living enemy, any of them; nobody for another skill, without an operating
        unit, or when no enemy is alive. */
    method GetDefaultSkillTarget(skill: nat) returns (targets: seq<nat>, ghost o: Option<nat>)
      requires cur.Some? ==> cur.value < |battleUnits|
      ensures targets == Uids(o)
      ensures if cur.None? || skill != NORMAL_ATTACK then targets == []
              else Aimed(Views(battleUnits), cur.value, o)
      ensures cur.Some? && skill == NORMAL_ATTACK ==>
                (targets == [] <==> forall j: nat :: !Aims(Views(battleUnits), cur.value, j))
    {
      targets, o := [], None;
      if cur.None? {
        return;
      }
      var camp := Enemy(battleUnits[cur.value].camp);
      if skill == NORMAL_ATTACK {
        var vec := AliveByCamp(battleUnits, camp);
        forall j: nat ensures Aims(Views(battleUnits), cur.value, j) <==> j in vec {
        }
        if |vec| == 0 {
          return;
        }
        var index := RandBetween(0, |vec| - 1);
        assert vec[index] in vec;
        o := Some(vec[index]);
        targets := [battleUnits[vec[index]].uid];
      }
    }

    /** The operating unit is to be given its operation by the fight itself. */
    predicate ActsByItself()
      requires cur.Some? ==> cur.value < |battleUnits|
      requires |campUnits| == 2
      reads this, campUnits
    {
      && step == StepRound && state == WaitingOperate && cur.Some?
      && !UserActs() && Side().state != OperateEnd
    }

    /** Fills in the default skill and its targets. */
    method Order() returns (ghost o: Option<nat>)
      requires cur.Some? && cur.value < |battleUnits|
      modifies battleUnits
      ensures Views(battleUnits) == old(Views(battleUnits)) && Ordered(o)
    {
      var unit := battleUnits[cur.value];
      var targets;
      targets, o := GetDefaultSkillTarget(NORMAL_ATTACK);
      unit.skillId, unit.targetVec := NORMAL_ATTACK, targets;
    }

    /** Gives the operating unit its normal attack when it acts by itself, and does
        nothing otherwise. */
    method AutoFight() returns (ghost o: Option<nat>)
      requires Fits() && (cur.Some? ==> cur.value < |battleUnits|)
      modifies battleUnits, campUnits`state
      ensures Views(battleUnits) == old(Views(battleUnits))
      ensures if old(ActsByItself())
              then Ordered(o) && forall c <- campUnits :: c.state == if c == Side() then OperateEnd else old(c.state)
              else unchanged(battleUnits) && forall c <- campUnits :: c.state == old(c.state)
    {
      o := None;
      if step != StepRound {
        return;
      }
      if state != WaitingOperate {
        return;
      }
      if cur.None? {
        return;
      }
      var unit := battleUnits[cur.value];
      var side := FindCamp(unit.camp);
      if side.None? {
        return;
      }
      var camp := campUnits[side.value];
      if camp.kind == KIND_USER && !camp.auto {
        return;
      }
      if camp.state == OperateEnd {
        return;
      }
      o := Order();
      camp.state := OperateEnd;
    }

    method TellCamp(camp: nat)
      requires Fits() && (camp == campUnits[0].camp || camp == campUnits[1].camp)
      requires forall c <- campUnits :: c.state == OperateEnd
      modifies campUnits`state
      ensures var side := campUnits[if camp == campUnits[0].camp then 0 else 1];
              forall c <- campUnits :: c.state == if c == side then Operate else OperateEnd
    {
      var side := FindCamp(camp);
      if side.Some? {
        campUnits[side.value].state := Operate;
      }
    }

    /** The camp of the unit to act is to operate; the fight waits for it. */
    method Ask()
      requires cur.Some? ==> cur.value < |battleUnits|
      requires Fits() && forall c <- campUnits :: c.state == OperateEnd
      modifies this`state, campUnits`state
      ensures state == WaitingOperate && Views(battleUnits) == old(Views(battleUnits))
      ensures forall c <- campUnits :: c.state == if cur.Some? && c == Side() then Operate else OperateEnd
    {
      if cur.Some? {
        assert battleUnits[cur.value] in battleUnits;
        TellCamp(battleUnits[cur.value].camp);
      }
      state := WaitingOperate;
    }

    // ---------- the round phases ----------

    method Begin()
      modifies this`round, campUnits`state
      ensures round == old(round) + 1 && (forall c <- campUnits :: c.state == OperateEnd)
      ensures Views(battleUnits) == old(Views(battleUnits))
    {
      round := round + 1;
      SetCampStates(OperateEnd);
    }

    /** Runs the speed bar for this round. */
    method RunRound()
      requires Ongoing(round - 1) && cur == None && Views(battleUnits) == Present()
      modifies this`cur, battleUnits
      ensures Picked() && (cur.None? <==> Stuck(speedBar, Present()))
    {
      hide Housed;
      hide Scoped;
      hide Battle;
      hide Judge;
      ghost var us := Present();
      ghost var i := 0;
      if !Stuck(speedBar, us) {
        var o;
        i, o := SomeoneActs(speedBar, start, history);
      }
      hide Running;
      RunSpeedBar();
      assert Present() == us;
    }

    /** Asks for the operation of this round, and gives it where nobody has to be
        asked. */
    method GiveOperation() returns (ghost o: Option<nat>)
      requires Picked() && forall c <- campUnits :: c.state == OperateEnd
      modifies this`state, battleUnits, campUnits`state
      ensures Picked() && state == WaitingOperate
      ensures (forall c <- campUnits :: c.state == OperateEnd) <==> cur.None? || !UserActs()
      ensures cur.Some? && !UserActs() ==> Ordered(o)
    {
      hide Running;
      hide Stuck;
      hide ToAct;
      hide Mid;
      hide Ordered;
      ghost var us := Present();
      Ask();
      assert cur.Some? ==> Side() in campUnits;
      o := AutoFight();
      assert Present() == us;
    }

    /** Opens a round up to the point where it is known who acts and, unless a user
        has to say so, how. */
    method OpenRound() returns (ghost o: Option<nat>)
      requires Ongoing(round) && cur == None && Views(battleUnits) == Present()
      modifies this`round, this`state, this`cur, battleUnits, campUnits`state
      ensures Picked() && state == WaitingOperate && round == old(round) + 1
      ensures cur.None? <==> old(Stuck(speedBar, Present()))
      ensures (forall c <- campUnits :: c.state == OperateEnd) <==> cur.None? || !UserActs()
      ensures cur.Some? && !UserActs() ==> Ordered(o)
    {
      hide Housed;
      hide Running;
      hide Stuck;
      hide ToAct;
      hide Mid;
      hide Ordered;
      ghost var us := Present();
      Begin();
      assert Present() == us;
      RunRound();
      o := GiveOperation();
    }

    /** Starts a round: everyone's camp is done except the camp of the unit that is
        to act, which acts by itself unless a user plays it. */
    method RoundStart()
      requires Ongoing(round) && cur == None && Views(battleUnits) == Present()
      modifies this`step, this`state, this`round, this`result, this`cur, this`crashed, this`history
      modifies battleUnits, campUnits`state
      ensures Settled(old(history)) && old(history) <= history
      ensures Robots() && old(Stuck(speedBar, Present())) ==> Broken() && history == old(history)
      ensures !Robots() ==> (cur.None? <==> old(Stuck(speedBar, Present())))
      decreases MAX_ROUND - round, 0
    {
      hide Housed;
      hide Running;
      hide Stuck;
      hide ToAct;
      hide Mid;
      hide Over;
      hide Broken;
      hide Ordered;
      ghost var o := OpenRound();
      var ready := CampsAre(OperateEnd);
      if !ready {
        assert Side() in campUnits;
        return;
      }
      RoundFight(o);
    }

    /** The unit to act does what it has been told to. */
    method Operation(ghost o: Option<nat>)
      requires Sorted(battleUnits) && (cur.Some? ==> Ordered(o))
      modifies battleUnits
      ensures if cur.None? then Views(battleUnits) == old(Views(battleUnits))
              else (o.Some? ==> o.value < |battleUnits|)
                   && Views(battleUnits) == Hurt(old(Views(battleUnits)), cur.value, o)
    {
      ghost var vs := Views(battleUnits);
      if cur.Some? {
        DoOperate(battleUnits, cur.value);
        StrikeIsHurt(vs, cur.value, o);
      }
    }

    method SetPlaying()
      modifies campUnits`state
      ensures forall c <- campUnits :: c.state == if c.kind == 2 then Play else PlayEnd
    {
      var k := 0;
      while k < |campUnits|
        invariant 0 <= k <= |campUnits|
        invariant forall i :: 0 <= i < k ==>
                    campUnits[i].state == if campUnits[i].kind == KIND_USER then Play else PlayEnd
      {
        campUnits[k].state := if campUnits[k].kind == KIND_USER then Play else PlayEnd;
        k := k + 1;
      }
    }

    /** The calculation, and the start of its playing. */
    method Fight(ghost o: Option<nat>)
      requires Picked() && (cur.Some? ==> Ordered(o))
      modifies this`state, battleUnits, campUnits`state
      ensures Fought(o)
      ensures forall c <- campUnits :: c.state == if c.kind == 2 then Play else PlayEnd
    {
      hide Housed;
      hide Running;
      hide Stuck;
      hide ToAct;
      hide Mid;
      ghost var us := Present();
      state := Fighting;
      Operation(o);
      state := Playing;
      SetPlaying();
      assert Present() == us;
    }

    /** Runs the operation and lets the clients play it. */
    method RoundFight(ghost o: Option<nat>)
      requires Picked() && (cur.Some? ==> !UserActs() && Ordered(o))
      modifies this`step, this`state, this`round, this`result, this`cur, this`crashed, this`history
      modifies battleUnits, campUnits`state
      ensures Settled(old(history)) && old(history) <= history
      ensures Robots() && old(cur.None?) ==> Broken() && history == old(history)
      ensures !Robots() ==> cur == old(cur)
      decreases MAX_ROUND - round, 3
    {
      hide Housed;
      hide Running;
      hide Stuck;
      hide ToAct;
      hide Mid;
      hide Over;
      hide Broken;
      hide Ordered;
      Fight(o);
      var played := CampsAre(PlayEnd);
      if !played {
        return;
      }
      RoundEnd(o);
    }

    method Break(ghost o: Option<nat>)
      requires Fought(o) && cur.None?
      modifies this`crashed
      ensures Broken()
    {
      hide Running;
      hide Stuck;
      ghost var us := Present();
      crashed := true;
      assert Present() == us;
    }

    method Rest()
      requires Sorted(battleUnits) && cur.Some? && cur.value < |battleUnits|
      modifies this`cur, battleUnits
      ensures Views(battleUnits) == Rested(old(Views(battleUnits)), old(cur.value)) && cur == None
    {
      var unit := battleUnits[cur.value];
      ghost var vs := Rested(Views(battleUnits), cur.value);
      unit.curSpeedBar := 0;
      unit.skillId, unit.targetVec := 0, [];
      forall x | 0 <= x < |battleUnits| ensures battleUnits[x].View() == vs[x] {
        if x != cur.value { assert battleUnits[x].uid != unit.uid; }
      }
      cur := None;
    }

    /** The unit that acted clears its bar and its operation; the turn is recorded. */
    method Record(ghost o: Option<nat>)
      requires Fought(o) && cur.Some?
      modifies this`cur, this`history, battleUnits
      ensures Battle(speedBar, start, history)
      ensures |history| == old(|history|) + 1 && old(history) <= history
      ensures Views(battleUnits) == Present() && cur == None
    {
      hide Battle;
      hide ToAct;
      hide Mid;
      ghost var t := Turn(Present(), cur.value, o, Rested(Views(battleUnits), cur.value));
      BattleGrows(speedBar, start, history, cur.value, o, t);
      hide Running;
      history := history + [t];
      Rest();
    }

    /** Ends a round: the unit that acted starts over, and the fight ends or goes
        on to the next round. Without such a unit the original dereferences null. */
    method RoundEnd(ghost o: Option<nat>)
      requires Robots() && Fought(o)
      modifies this`step, this`state, this`round, this`result, this`cur, this`crashed, this`history
      modifies battleUnits, campUnits`state
      ensures Over() || Broken()
      ensures old(history) <= history && (old(cur.None?) ==> Broken() && history == old(history))
      decreases MAX_ROUND - round, 2
    {
      hide Housed;
      if cur.None? {
        Break(o);
        return;
      }
      hide Stuck;
      hide Running;
      hide ToAct;
      hide Mid;
      hide Over;
      hide Broken;
      Record(o);
      EndOrGoOn();
    }

    method CombatEnd()
      requires cur == None && !crashed && 1 <= round == |history| <= MAX_ROUND
      requires Battle(speedBar, start, history) && Views(battleUnits) == Present()
      requires result.Some? && result == Judge(Present(), round)
      modifies this`step
      ensures Over()
    {
      step := StepEnd;
    }

    method CheckCombatEnd() returns (ended: bool)
      modifies this`result
      ensures ended <==> Judge(Views(battleUnits), round).Some?
      ensures result == if ended then Judge(Views(battleUnits), round) else old(result)
      ensures Views(battleUnits) == old(Views(battleUnits))
    {
      var dead1 := IsAllDead(battleUnits, 1);
      var dead2 := IsAllDead(battleUnits, 2);
      if dead1 && dead2 {
        result := Some(AllDefeat);
        return true;
      } else if dead1 {
        result := Some(Camp1Defeat);
        return true;
      } else if dead2 {
        result := Some(Camp2Defeat);
        return true;
      } else if round >= MAX_ROUND {
        result := Some(Timeout);
        return true;
      }
      return false;
    }

    method EndOrGoOn()
      requires Robots() && Fits() && step == StepRound && cur == None && !crashed
      requires Battle(speedBar, start, history)
      requires 1 <= round == |history| <= MAX_ROUND && Views(battleUnits) == Present()
      modifies this`step, this`state, this`round, this`result, this`cur, this`crashed, this`history
      modifies battleUnits, campUnits`state
      ensures (Over() || Broken()) && old(history) <= history
      decreases MAX_ROUND - round, 1
    {
      hide Housed;
      hide Battle;
      hide Over;
      hide Broken;
      ghost var us := Present();
      var ended := CheckCombatEnd();
      assert Present() == us;
      if ended {
        CombatEnd();
        return;
      }
      NotJudged(us, round);
      hide Judge;
      RoundStart();
    }

    // ---------- set-up and loading ----------

    ghost predicate Holds(fs: seq<Fighter>)
      reads this, battleUnits
    {
      HoldsUnits(battleUnits, fs)
    }

    method AddUnit(camp: nat, unit: UnitData, ghost fs: seq<Fighter>)
      requires Holds(fs)
      modifies this`battleUnits
      ensures Holds(fs + [NewFighter(camp, unit.uid, unit.attrs)])
      ensures forall u <- battleUnits :: u in old(battleUnits) || fresh(u)
    {
      var u := new BattleUnit(camp, unit.uid, unit.attrs);
      PlaceHolds(battleUnits, u, fs);
      battleUnits := Place(battleUnits, u, UnitUid);
    }

    method AddUnits(c: CampData, ghost fs: seq<Fighter>)
      requires Holds(fs)
      modifies this`battleUnits
      ensures Holds(fs + Members(c))
      ensures forall u <- battleUnits :: u in old(battleUnits) || fresh(u)
    {
      var j := 0;
      assert fs + Members(c)[..0] == fs;
      while j < |c.units|
        invariant 0 <= j <= |c.units| && Holds(fs + Members(c)[..j])
        invariant forall u <- battleUnits :: u in old(battleUnits) || fresh(u)
      {
        AddUnit(c.camp, c.units[j], fs + Members(c)[..j]);
        assert fs + Members(c)[..j + 1] == fs + Members(c)[..j] + [Members(c)[j]];
        j := j + 1;
      }
      assert Members(c)[..j] == Members(c);
    }

    ghost predicate Seated(cs: seq<CampData>)
      reads this, campUnits
    {
      SeatedIn(campUnits, cs)
    }

    /** The first two camps are seated, whatever comes first. */
    method AddCamp(cs: seq<CampData>, k: nat)
      requires k < |cs| <= 2 && Seated(cs[..k]) && (k == 1 ==> cs[0].camp != cs[1].camp)
      modifies this`campUnits
      ensures Seated(cs[..k + 1])
      ensures forall p <- campUnits :: p in old(campUnits) || fresh(p)
    {
      var p := new CampUnit(cs[k].uid, cs[k].camp, cs[k].kind);
      if k == 0 {
        SeatFirst(campUnits, p, cs[..1]);
      } else {
        SeatSecond(campUnits, p, cs[..1], cs[..2]);
      }
      campUnits := Place(campUnits, p, CampNumber);
    }

    method CheckInit(data: InitData) returns (b: bool)
      ensures b == Admissible(data)
      ensures b <==> |data.campVec| == 2 && data.campVec[0].camp != data.campVec[1].camp
                     && |data.campVec[0].units| > 0 && |data.campVec[1].units| > 0
    {
      if |data.campVec| != 2 {
        return false;
      }
      if data.campVec[0].camp == data.campVec[1].camp {
        return false;
      }
      if |data.campVec[0].units| == 0 {
        return false;
      }
      if |data.campVec[1].units| == 0 {
        return false;
      }
      return true;
    }

    method CheckRoundStart() returns (b: bool)
      ensures b <==> step == StepLoading && forall c <- campUnits :: c.state == LoadingEnd
    {
      if step != StepLoading {
        return false;
      }
      b := CampsAre(LoadingEnd);
    }

    /** Nothing has been fought yet. */
    ghost predicate Unfought()
      reads this
    {
      round == 0 && cur == None && !crashed && history == []
    }

    /** A fight set up with units to start with, waiting for its camps to load. */
    ghost predicate Loads()
      reads this, battleUnits
    {
      step == StepLoading && Unfought() && Fits() && Starts(Views(battleUnits))
    }

    /** A fight started with these units and played as far as it goes: among robots to
        its end, otherwise to some point of the first round, which has a unit to act. */
    ghost predicate Launched(us: seq<Fighter>)
      reads this, battleUnits, campUnits
    {
      && start == us && Ascending(us) && BarFor(speedBar, us) && Exact(speedBar, us)
      && Settled([]) && (!Robots() ==> cur.Some?)
    }

    /** A fight refused for want of a unit that moves. */
    ghost predicate Refused(us: seq<Fighter>)
      reads this, battleUnits
    {
      step == StepRound && round == 0 && Views(battleUnits) == us && forall f <- us :: !Moves(f)
    }

    method FirstRound()
      requires step == StepRound && Unfought() && Fits()
      requires Starts(Views(battleUnits)) && BarFor(speedBar, Views(battleUnits))
      modifies this`step, this`state, this`round, this`result, this`cur, this`crashed, this`history
      modifies this`start, battleUnits, campUnits`state
      ensures Launched(old(Views(battleUnits)))
    {
      hide Housed;
      assert Ascending(Views(battleUnits));
      hide Ascending;
      hide Starts;
      hide BarFor;
      hide Exact;
      hide Battle;
      hide Stuck;
      hide Over;
      hide Broken;
      hide Paused;
      start := Views(battleUnits);
      ghost var us := start;
      StartIsBattle(speedBar, us);
      SetCampStates(OperateEnd);
      assert Present() == us;
      RoundStart();
    }

    /** Sets the bar and starts the first round. */
    method StepLoadingEnd() returns (ok: bool)
      requires Loads()
      modifies this`step, this`state, this`round, this`result, this`cur, this`crashed, this`history
      modifies this`start, this`speedBar, battleUnits, campUnits`state
      ensures if ok then Launched(old(Views(battleUnits))) else Refused(old(Views(battleUnits)))
    {
      hide Starts;
      step := StepRound;
      ok := InitSpeedBar();
      if !ok {
        return;
      }
      hide BarFor;
      hide Launched;
      FirstRound();
    }

    /** Starts the fight if every camp has loaded. */
    method TryStart() returns (ok: bool)
      requires Loads()
      modifies this`step, this`state, this`round, this`result, this`cur, this`crashed, this`history
      modifies this`start, this`speedBar, battleUnits, campUnits`state
      ensures if old(exists c <- campUnits :: c.state != LoadingEnd)
              then ok && Loads() && Views(battleUnits) == old(Views(battleUnits))
                   && forall c <- campUnits :: c.state == old(c.state)
              else if ok then Launched(old(Views(battleUnits)))
              else Refused(old(Views(battleUnits)))
    {
      hide Starts;
      hide Launched;
      hide Refused;
      var ready := CheckRoundStart();
      if ready {
        ok := StepLoadingEnd();
        return;
      }
      return true;
    }

    method Loaded(k: nat)
      requires Loads() && k < |campUnits|
      modifies campUnits`state
      ensures Loads() && Views(battleUnits) == old(Views(battleUnits))
      ensures campUnits[k].state == LoadingEnd
      ensures forall c <- campUnits :: c != campUnits[k] ==> c.state == old(c.state)
    {
      campUnits[k].state := LoadingEnd;
    }

    ghost predicate Unknown(uid: nat)
      reads this
    {
      forall c <- campUnits :: c.uid != uid
    }

    /** The camp found for a uid: the first that has it. */
    ghost predicate Owns(k: nat, uid: nat)
      reads this
    {
      && k < |campUnits| && campUnits[k].uid == uid
      && forall i :: 0 <= i < k ==> campUnits[i].uid != uid
    }

    /** One camp has loaded; the fight starts when all have. */
    method SetLoadingEnd(uid: nat) returns (ok: bool)
      requires step == StepLoading ==> Loads()
      modifies this`step, this`state, this`round, this`result, this`cur, this`crashed, this`history
      modifies this`start, this`speedBar, battleUnits, campUnits`state
      ensures old(step != StepLoading || Unknown(uid)) ==> !ok && unchanged(this) && unchanged(battleUnits)
      ensures old(step == StepLoading && !Unknown(uid)) ==>
                if old(exists k: nat, c :: Owns(k, uid) && c in campUnits && c != campUnits[k] && c.state != LoadingEnd)
                then ok && Loads() && Views(battleUnits) == old(Views(battleUnits))
                     && forall k: nat :: k < |campUnits| ==>
                          campUnits[k].state == if Owns(k, uid) then LoadingEnd else old(campUnits[k].state)
                else if ok then Launched(old(Views(battleUnits)))
                else Refused(old(Views(battleUnits)))
    {
      hide Starts;
      hide Launched;
      hide Refused;
      hide Over;
      hide Broken;
      if step != StepLoading {
        return false;
      }
      var k := 0;
      while k < |campUnits| && campUnits[k].uid != uid
        invariant 0 <= k <= |campUnits| && forall i :: 0 <= i < k ==> campUnits[i].uid != uid
      {
        k := k + 1;
      }
      if k == |campUnits| {
        return false;
      }
      assert old(Owns(k, uid)) && campUnits[k] in campUnits;
      Loaded(k);
      ok := TryStart();
    }

    /** Units and camps of the data are put into their maps. */
    method SetUp(camps: seq<CampData>)
      requires Blank() && |camps| == 2 && camps[0].camp != camps[1].camp
      modifies this`battleUnits, this`campUnits, this`step
      ensures Holds(Everyone(camps)) && Seated(camps) && step == StepLoading
      ensures fresh(battleUnits) && fresh(campUnits)
    {
      var i := 0;
      assert camps[..0] == [] && Views(battleUnits) == [];
      while i < |camps|
        invariant 0 <= i <= |camps|
        invariant Holds(Everyone(camps[..i])) && Seated(camps[..i])
        invariant (forall u <- battleUnits :: fresh(u)) && (forall c <- campUnits :: fresh(c))
      {
        AddUnits(camps[i], Everyone(camps[..i]));
        assert camps[..i + 1][..i] == camps[..i];
        AddCamp(camps, i);
        i := i + 1;
      }
      assert camps[..i] == camps;
      step := StepLoading;
      assert forall k :: 0 <= k < |battleUnits| ==> battleUnits[k] in battleUnits;
      assert forall k :: 0 <= k < |campUnits| ==> campUnits[k] in campUnits;
    }

    /** A fight in which nobody who moves is too slow is never left without a unit
        to act. */
    lemma NeverBroken()
      requires BarFor(speedBar, start)
      ensures NoneTooSlow(start) ==> !Broken()
    {
      if NoneTooSlow(start) && Broken() {
        NoneTooSlowNever(speedBar, start);
        NeverSlowNeverStuck(speedBar, start, history);
      }
    }

    /** What is left of a fight among robots that was started or refused. */
    lemma Outcome(us: seq<Fighter>)
      ensures Launched(us) ==> start == us && exists f <- us :: Moves(f)
      ensures Launched(us) && Robots() ==> (Over() || Broken()) && (NoneTooSlow(us) ==> Over())
      ensures Refused(us) ==> Views(battleUnits) == us && forall f <- us :: !Moves(f)
    {
      if Launched(us) && Robots() { NeverBroken(); }
    }

    /** Data in scope makes units to start with. */
    lemma SetUpScope(data: InitData)
      requires Holds(Everyone(data.campVec)) && Seated(data.campVec) && Admissible(data) && InScope(data)
      ensures Fits() && Starts(Views(battleUnits)) && Enlisted(Views(battleUnits), data)
    {
      forall u <- battleUnits ensures u.camp == campUnits[0].camp || u.camp == campUnits[1].camp {
        SeenIn(battleUnits, u);
        assert Stands(Everyone(data.campVec), u.View());
        EveryoneIs(data.campVec, u.View());
      }
      ScopeStarts(data, Views(battleUnits));
    }

    /** The camps that have to load are the users'. */
    lemma SetUpCamps(data: InitData)
      requires Seated(data.campVec) && |data.campVec| == 2
      ensures Users(data) <==> exists c <- campUnits :: c.state != LoadingEnd
      ensures Users(data) <==> !Robots()
    {
      var cs := data.campVec;
      assert cs == [cs[0], cs[1]] && campUnits == [campUnits[0], campUnits[1]];
    }

    /** The fight is set up, waiting for its users if it has any. */
    method Load(data: InitData)
      requires Blank() && Admissible(data) && InScope(data)
      modifies this`battleUnits, this`campUnits, this`step
      ensures Loads() && fresh(battleUnits) && fresh(campUnits) && Enlisted(Views(battleUnits), data)
      ensures Seated(data.campVec)
      ensures Users(data) <==> exists c <- campUnits :: c.state != LoadingEnd
      ensures Users(data) <==> !Robots()
    {
      SetUp(data.campVec);
      SetUpScope(data);
      SetUpCamps(data);
    }

    /** Sets the fight up and, when there is no user to wait for, plays it: refused
        when nobody moves, otherwise to its end or to the state in which no unit can
        be found to act, and never to that when no unit is too slow. */
    method Init(data: InitData) returns (ok: bool)
      requires Blank() && (Admissible(data) ==> InScope(data))
      modifies this
      ensures !Admissible(data) ==> !ok && unchanged(this)
      ensures Admissible(data) && Users(data) ==>
                ok && Loads() && Enlisted(Views(battleUnits), data) && Seated(data.campVec)
      ensures Admissible(data) && !Users(data) ==> (ok <==> SomebodyMoves(data))
      ensures Admissible(data) && !Users(data) && ok ==>
                Launched(start) && Enlisted(start, data) && (Over() || Broken())
      ensures Admissible(data) && !Users(data) && ok && NobodyTooSlow(data) ==> Over()
      ensures Admissible(data) && !Users(data) && !ok ==>
                Refused(Views(battleUnits)) && Enlisted(Views(battleUnits), data)
    {
      hide InScope;
      hide Loads;
      hide Launched;
      hide Refused;
      hide Enlisted;
      hide Over;
      hide Broken;
      hide NoneTooSlow;
      hide NobodyTooSlow;
      hide SomebodyMoves;
      var admissible := CheckInit(data);
      if !admissible {
        return false;
      }
      Load(data);
      ghost var us := Views(battleUnits);
      EnlistedLike(us, data);
      ok := TryStart();
      Outcome(us);
    }

    /** A fight among robots that has stopped stands without a unit to act if and only
        if nobody has won it and every living unit that moves, of which there is one,
        would need more than 99998 ticks. */
    lemma BrokenExactly()
      requires (Over() || Broken()) && BarFor(speedBar, start)
      ensures exists f <- Views(battleUnits) :: Moves(f)
      ensures Broken() <==>
                && Judge(Views(battleUnits), |history|) == None
                && forall f <- Views(battleUnits) :: Moves(f) ==> Reach(f, 99998) < speedBar
    {
      FirstRuns(speedBar, start);
      MoverRemains(speedBar, start, history);
      NoTicksExactly(Present(), speedBar);
    }

    /** Nothing but the targets decides whether a fight gets there: if a stuck battle
        from the same units took the same targets, as far as both go, the fight has
        stopped with it. */
    lemma StopsThere(h: seq<Turn>)
      requires Over() || Broken()
      requires Running(speedBar, start, h) && Stuck(speedBar, Now(start, h))
      requires forall k :: 0 <= k < |history| && k < |h| ==> history[k].target == h[k].target
      ensures Broken() && history == h
    {
      SameStop(speedBar, start, history, h);
    }

    /** The verdict of a fight among robots is about the units it leaves behind, and
        never that everyone is dead if all are of camps 1 and 2. */
    lemma OverVerdict()
      requires Over()
      ensures var us := Views(battleUnits);
              && (result == Some(Camp1Defeat) <==> AllDead(us, 1) && !AllDead(us, 2))
              && (result == Some(Camp2Defeat) <==> AllDead(us, 2) && !AllDead(us, 1))
              && (result == Some(AllDefeat) <==> AllDead(us, 1) && AllDead(us, 2))
              && (result == Some(Timeout) <==> round == 99 && BothAlive(us))
              && ((forall f <- start :: f.camp == 1 || f.camp == 2) ==> result != Some(AllDefeat))
    {
      VerdictExact(speedBar, start, history);
    }
  }
}
