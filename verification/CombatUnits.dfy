/** The objects of a fight, units and camps that change in place, and the loops
    over the unit map: running the speed bar, looking units up, and the normal
    attack. The unit map is a sequence in the order of its keys. */
module CombatUnits {
  import opened Wrappers
  import opened CombatModel

  const ATTR_HP := 1
  const ATTR_ATK := 2
  const ATTR_DEF := 3
  const ATTR_SPEED := 4

  const KIND_USER := 2

  datatype CampState = Loading | LoadingEnd | Operate | OperateEnd | Play | PlayEnd

  const NORMAL_ATTACK := 1

  /** A missing attribute reads as 0. */
  function Attr(attrs: map<nat, nat>, key: nat): nat {
    if key in attrs then attrs[key] else 0
  }

  function NewFighter(camp: nat, uid: nat, attrs: map<nat, nat>): Fighter {
    Fighter(uid, camp, Attr(attrs, ATTR_ATK), Attr(attrs, ATTR_DEF), Attr(attrs, ATTR_SPEED),
            Attr(attrs, ATTR_HP), 0, 0)
  }

  class BattleUnit {
    const uid: nat
    const camp: nat
    const attrs: map<nat, nat>
    var hp: nat
    var curSpeedBar: nat
    var overflowSpeedBar: nat
    var skillId: nat
    var targetVec: seq<nat>

    function Speed(): nat {
      Attr(attrs, ATTR_SPEED)
    }

    function View(): Fighter
      reads this
    {
      Fighter(uid, camp, Attr(attrs, ATTR_ATK), Attr(attrs, ATTR_DEF), Speed(), hp, curSpeedBar, overflowSpeedBar)
    }

    constructor (camp: nat, uid: nat, attrs: map<nat, nat>)
      ensures View() == NewFighter(camp, uid, attrs)
      ensures View().hp == if 1 in attrs then attrs[1] else 0
      ensures View().atk == if 2 in attrs then attrs[2] else 0
      ensures View().def == if 3 in attrs then attrs[3] else 0
      ensures View().speed == if 4 in attrs then attrs[4] else 0
      ensures this.camp == camp && this.uid == uid && this.attrs == attrs
    {
      this.uid, this.camp, this.attrs := uid, camp, attrs;
      hp := Attr(attrs, ATTR_HP);
      curSpeedBar, overflowSpeedBar := 0, 0;
      skillId, targetVec := 0, [];
    }

    function SpeedBarTotal(): nat
      reads this
    {
      curSpeedBar + overflowSpeedBar
    }

    predicate IsAlive()
      reads this
    {
      hp > 0
    }
  }

  class CampUnit {
    const uid: nat
    const camp: nat
    const kind: nat
    var state: CampState
    var auto: bool

    /** A user has to load and to act; anything else is ready and automatic. */
    constructor (uid: nat, camp: nat, kind: nat)
      ensures this.uid == uid && this.camp == camp && this.kind == kind
      ensures state == if kind == 2 then Loading else LoadingEnd
      ensures auto == (kind != 2)
    {
      this.uid, this.camp, this.kind := uid, camp, kind;
      state := if kind == KIND_USER then Loading else LoadingEnd;
      auto := kind != KIND_USER;
    }
  }

  // ---------- loops over the unit map ----------

  ghost predicate Sorted(us: seq<BattleUnit>) {
    forall i, j :: 0 <= i < j < |us| ==> us[i].uid < us[j].uid
  }

  /** Every unit is of one of the two camps. */
  ghost predicate Housed(us: seq<BattleUnit>, camps: seq<CampUnit>)
    requires |camps| == 2
  {
    forall u <- us :: u.camp == camps[0].camp || u.camp == camps[1].camp
  }

  ghost function Views(us: seq<BattleUnit>): (r: seq<Fighter>)
    reads us
    ensures |r| == |us| && forall i :: 0 <= i < |us| ==> r[i] == us[i].View()
  {
    seq(|us|, i requires 0 <= i < |us| reads us => us[i].View())
  }

  /** The first loop of the run: the least number of ticks to a full bar. */
  method LeastTicks(us: seq<BattleUnit>, bar: nat) returns (least: nat)
    ensures least == MinTicks(Views(us), bar)
  {
    least := INVALID_TICKS;
    var k := 0;
    while k < |us|
      invariant 0 <= k <= |us| && least == MinTicks(Views(us)[..k], bar)
    {
      var u := us[k];
      ghost var vs := Views(us);
      assert vs[..k + 1][..k] == vs[..k] && vs[k] == u.View();
      if u.IsAlive() && u.Speed() > 0 {
        var times := CeilDiv(SafeSub(bar, u.SpeedBarTotal()), u.Speed());
        if least > times {
          least := times;
        }
      }
      k := k + 1;
    }
    assert Views(us)[..k] == Views(us);
  }

  /** One unit moves. */
  method MoveUnit(u: BattleUnit, bar: nat, ticks: nat)
    requires u.IsAlive()
    modifies u`curSpeedBar, u`overflowSpeedBar
    ensures u.View() == Advance(old(u.View()), bar, ticks)
  {
    var cur := ticks * u.Speed() + u.SpeedBarTotal();
    if cur > bar {
      u.curSpeedBar := bar;
      u.overflowSpeedBar := SafeSub(cur, bar);
    } else {
      u.curSpeedBar := cur;
      u.overflowSpeedBar := 0;
    }
  }

  /** Whether the second unit goes before the first; nobody gives way to anybody. */
  method CompareSpeedBar(u1: BattleUnit?, u2: BattleUnit?) returns (b: bool)
    ensures b <==> u1 == null || (u2 != null && Yields(u1.View(), u2.View()))
  {
    if u1 == null {
      return true;
    }
    if u2 == null {
      return false;
    }
    if u1.SpeedBarTotal() > u2.SpeedBarTotal() {
      return false;
    } else if u1.SpeedBarTotal() == u2.SpeedBarTotal() {
      if u1.camp > u2.camp {
        return false;
      } else if u1.camp == u2.camp {
        if u1.uid > u2.uid {
          return false;
        }
      }
    }
    return true;
  }

  /** Unit k moves, and takes the place of the best so far if it is ready and goes
      before it. */
  method MoveOne(us: seq<BattleUnit>, bar: nat, ticks: nat, k: nat, best0: Option<nat>) returns (best: Option<nat>)
    requires Sorted(us) && k < |us| && (best0.Some? ==> best0.value < k)
    modifies us
    ensures Views(us) == old(Views(us))[k := Advance(old(us[k].View()), bar, ticks)]
    ensures best == if !ReadyUnit(us[k].View(), bar) then best0
                    else if best0.None? || Yields(us[best0.value].View(), us[k].View()) then Some(k)
                    else best0
  {
    best := best0;
    var u := us[k];
    ghost var vs := Views(us)[k := Advance(u.View(), bar, ticks)];
    if u.IsAlive() {
      MoveUnit(u, bar, ticks);
      if u.SpeedBarTotal() >= bar {
        if best.None? {
          best := Some(k);
        } else {
          var later := CompareSpeedBar(us[best.value], u);
          if later {
            best := Some(k);
          }
        }
      }
    }
    forall i | 0 <= i < |us| ensures us[i].View() == vs[i] {
      if i != k { assert us[i].uid != u.uid; }
    }
  }

  /** The second loop of the run: every living unit moves, and the unit to act is
      chosen on the way. */
  method MoveAll(us: seq<BattleUnit>, bar: nat, ticks: nat) returns (best: Option<nat>)
    requires Sorted(us)
    modifies us
    ensures Views(us) == AdvanceAll(old(Views(us)), bar, ticks)
    ensures best == Pick(Views(us), bar)
    ensures best.Some? ==> best.value < |us|
  {
    ghost var vs := Views(us);
    ghost var mid := AdvanceAll(vs, bar, ticks);
    best := None;
    var k := 0;
    while k < |us|
      invariant 0 <= k <= |us|
      invariant forall i :: 0 <= i < |us| ==> Views(us)[i] == if i < k then mid[i] else vs[i]
      invariant best == PickUpTo(mid, bar, k) && (best.Some? ==> best.value < k)
    {
      ghost var was := Views(us);
      best := MoveOne(us, bar, ticks, k, best);
      assert Views(us) == was[k := mid[k]];
      assert best == PickUpTo(mid, bar, k + 1);
      k := k + 1;
    }
    assert Views(us) == mid;
  }

  /** The living units of a camp, each once, in the order of the map. */
  method AliveByCamp(us: seq<BattleUnit>, camp: nat) returns (vec: seq<nat>)
    ensures forall a, b :: 0 <= a < b < |vec| ==> vec[a] < vec[b]
    ensures forall k :: 0 <= k < |vec| ==> vec[k] < |us| && us[vec[k]].camp == camp && us[vec[k]].IsAlive()
    ensures forall i :: 0 <= i < |us| && us[i].camp == camp && us[i].IsAlive() ==> i in vec
  {
    vec := [];
    var i := 0;
    while i < |us|
      invariant 0 <= i <= |us|
      invariant forall a, b :: 0 <= a < b < |vec| ==> vec[a] < vec[b]
      invariant forall k :: 0 <= k < |vec| ==> vec[k] < i
      invariant forall k :: 0 <= k < |vec| ==> vec[k] < |us| && us[vec[k]].camp == camp && us[vec[k]].IsAlive()
      invariant forall x :: 0 <= x < i && us[x].camp == camp && us[x].IsAlive() ==> x in vec
    {
      if us[i].camp == camp && us[i].IsAlive() {
        vec := vec + [i];
      }
      i := i + 1;
    }
  }

  method IsAllDead(us: seq<BattleUnit>, camp: nat) returns (b: bool)
    ensures b == AllDead(Views(us), camp)
  {
    var i := 0;
    while i < |us|
      invariant 0 <= i <= |us|
      invariant forall x :: 0 <= x < i && us[x].camp == camp ==> !us[x].IsAlive()
    {
      if us[i].camp == camp && us[i].IsAlive() {
        AllDeadExactly(Views(us), camp);
        assert us[i].View() in Views(us);
        return false;
      }
      i := i + 1;
    }
    AllDeadExactly(Views(us), camp);
    return true;
  }

  /** std::map::find by uid. */
  method FindUnit(us: seq<BattleUnit>, uid: nat) returns (r: Option<nat>)
    ensures r.Some? ==> r.value < |us| && us[r.value].uid == uid
    ensures r.None? ==> forall i :: 0 <= i < |us| ==> us[i].uid != uid
  {
    var i := 0;
    while i < |us|
      invariant 0 <= i <= |us| && forall x :: 0 <= x < i ==> us[x].uid != uid
    {
      if us[i].uid == uid {
        return Some(i);
      }
      i := i + 1;
    }
    return None;
  }

  /** Any whole number in the range; the upper bound when the range is empty. */
  method RandBetween(min: nat, max: nat) returns (r: nat)
    ensures if min < max then min <= r <= max else r == max
  {
    if min >= max {
      return max;
    }
    r :| min <= r <= max;
  }

  // ---------- skills ----------

  const SKILLS: map<nat, seq<nat>> := map[NORMAL_ATTACK := [1]]
  const E_SETS: map<nat, seq<nat>> := map[1 := [1]]
  const ELEMENTS: map<nat, seq<nat>> := map[1 := [150]]

  function Position(vs: seq<Fighter>, uid: nat): (r: Option<nat>)
    ensures r.Some? ==> r.value < |vs| && vs[r.value].uid == uid
    ensures r.None? ==> forall i :: 0 <= i < |vs| ==> vs[i].uid != uid
  {
    if vs == [] then None
    else if vs[|vs| - 1].uid == uid then Some(|vs| - 1)
    else Position(vs[..|vs| - 1], uid)
  }

  lemma PositionIs(vs: seq<Fighter>, j: nat)
    requires j < |vs| && DistinctFighters(vs)
    ensures Position(vs, vs[j].uid) == Some(j)
  {
    var p := Position(vs, vs[j].uid);
    assert vs[j].uid == vs[j].uid;
  }

  /** The effect of the normal attack on one named target, if it exists. */
  function Strike(vs: seq<Fighter>, i: nat, uid: nat): (r: seq<Fighter>)
    requires i < |vs|
    ensures |r| == |vs|
  {
    if Position(vs, uid).Some? then Hit(vs, i, Position(vs, uid).value) else vs
  }

  function StrikeAll(vs: seq<Fighter>, i: nat, uids: seq<nat>): (r: seq<Fighter>)
    requires i < |vs|
    ensures |r| == |vs|
  {
    if uids == [] then vs else Strike(StrikeAll(vs, i, uids[..|uids| - 1]), i, uids[|uids| - 1])
  }

  /** Striking the uid of a unit hits that unit and no other. */
  lemma StrikeIsHit(vs: seq<Fighter>, i: nat, j: nat)
    requires i < |vs| && j < |vs|
    requires DistinctFighters(vs)
    ensures StrikeAll(vs, i, [vs[j].uid]) == Hit(vs, i, j)
  {
    var uids := [vs[j].uid];
    assert uids[..0] == [];
    PositionIs(vs, j);
  }

  lemma StrikeIsHurt(vs: seq<Fighter>, i: nat, o: Option<nat>)
    requires i < |vs| && (o.Some? ==> o.value < |vs|) && DistinctFighters(vs)
    ensures StrikeAll(vs, i, if o.Some? then [vs[o.value].uid] else []) == Hurt(vs, i, o)
  {
    if o.Some? { StrikeIsHit(vs, i, o.value); }
  }

  /** The damage element: a percentage of the attack, less the defence, off the
      target's hit points. */
  method ElementNormalAtk(cur: BattleUnit, target: BattleUnit)
    modifies target`hp
    ensures target.View()
         == old(target.View()).(hp := SafeSub(old(target.hp), Damage(old(cur.View()), old(target.View()))))
    ensures var hp, atk, def := old(target.hp), old(cur.View()).atk, old(target.View()).def;
            var strike := (atk as real * 1.5).Floor - def;
            target.hp == if strike <= 0 then hp else if strike < hp then hp - strike else 0
  {
    DamageIs(cur.View(), target.View());
    var atk, def := Attr(cur.attrs, ATTR_ATK), Attr(target.attrs, ATTR_DEF);
    var costHp := SafeSub(atk * ELEMENTS[1][0] / 100, def);
    assert atk * 150 / 100 == atk * 3 / 2;
    target.hp := SafeSub(target.hp, costHp);
  }

  method StrikeOne(us: seq<BattleUnit>, i: nat, uid: nat)
    requires Sorted(us) && i < |us|
    modifies us
    ensures Views(us) == Strike(old(Views(us)), i, uid)
  {
    ghost var vs := Views(us);
    var target := FindUnit(us, uid);
    if target.Some? {
      var j := target.value;
      assert vs[j].uid == uid;
      PositionIs(vs, j);
      ElementNormalAtk(us[i], us[j]);
      forall x | 0 <= x < |us| ensures us[x].View() == Hit(vs, i, j)[x] {
        if x != j { assert us[x] != us[j]; }
      }
      assert Views(us) == Hit(vs, i, j);
    } else {
      assert Views(us) == vs;
    }
  }

  /** One element on every target of the operation, in order. */
  method StrikeTargets(us: seq<BattleUnit>, i: nat, uids: seq<nat>)
    requires Sorted(us) && i < |us|
    modifies us
    ensures Views(us) == StrikeAll(old(Views(us)), i, uids)
  {
    ghost var vs := Views(us);
    var k := 0;
    while k < |uids|
      invariant 0 <= k <= |uids| && Views(us) == StrikeAll(vs, i, uids[..k])
    {
      assert uids[..k + 1][..k] == uids[..k];
      StrikeOne(us, i, uids[k]);
      k := k + 1;
    }
    assert uids[..k] == uids;
  }

  /** Runs the operation of unit i: every element of every element set of its
      skill on every target. An unknown skill does nothing. */
  method DoOperate(us: seq<BattleUnit>, i: nat)
    requires Sorted(us) && i < |us|
    modifies us
    ensures Views(us) == if old(us[i].skillId) == 1 then StrikeAll(old(Views(us)), i, old(us[i].targetVec))
                         else old(Views(us))
  {
    var skill, targets := us[i].skillId, us[i].targetVec;
    ghost var vs := Views(us);
    if skill !in SKILLS {
      return;
    }
    var eSets := SKILLS[skill];
    assert eSets == [1];
    var a := 0;
    while a < |eSets|
      invariant 0 <= a <= 1 && Views(us) == if a == 0 then vs else StrikeAll(vs, i, targets)
    {
      var elements := E_SETS[eSets[a]];
      assert elements == [1];
      var b := 0;
      while b < |elements|
        invariant 0 <= b <= 1 && Views(us) == if b == 0 then vs else StrikeAll(vs, i, targets)
      {
        StrikeTargets(us, i, targets);
        b := b + 1;
      }
      a := a + 1;
    }
  }
}
