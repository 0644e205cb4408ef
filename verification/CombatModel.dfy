/** The turn-based fight on values: the speed bar that decides who acts, the one
    attack per round, and the verdict. A battle is a chain of turns; the target
    of each attack is any living enemy. */
module CombatModel {
  import opened Arithmetic
  import opened Wrappers

  const BAR_FACTOR := 7
  const INVALID_TICKS := 99999
  const MAX_ROUND := 99

  // below 2^24 single precision has every whole number: 7 * MAX_SPEED and
  // 3 * MAX_ATTACK stay below it
  const FLOAT_EXACT := 0x100_0000
  const MAX_SPEED := 2396745
  const MAX_ATTACK := 5592405

  /** A battle unit: fixed attributes, then what changes during the fight. */
  datatype Fighter = Fighter(
    uid: nat, camp: nat, atk: nat, def: nat, speed: nat,
    hp: nat, bar: nat, overflow: nat)

  function Total(f: Fighter): nat {
    f.bar + f.overflow
  }

  /** A unit's total after so many ticks. */
  function Reach(f: Fighter, ticks: nat): nat {
    ticks * f.speed + Total(f)
  }

  predicate Alive(f: Fighter) {
    f.hp > 0
  }

  /** Alive, and able to fill the bar at some time. */
  predicate Moves(f: Fighter) {
    Alive(f) && f.speed > 0
  }

  function SafeSub(a: nat, b: nat): nat {
    if a >= b then a - b else 0
  }

  function CeilDiv(a: nat, b: nat): nat
    requires b > 0
  {
    (a + b - 1) / b
  }

  // ---------- running the speed bar ----------

  /** Ticks a unit needs to fill the bar. */
  function Ticks(f: Fighter, bar: nat): nat
    requires f.speed > 0
  {
    CeilDiv(SafeSub(bar, Total(f)), f.speed)
  }

  /** The least such number among the living units that move, the sentinel if
      there is none below it. */
  function MinTicks(us: seq<Fighter>, bar: nat): (m: nat)
    ensures m <= INVALID_TICKS
  {
    if us == [] then INVALID_TICKS
    else
      var m := MinTicks(us[..|us| - 1], bar);
      var f := us[|us| - 1];
      if Alive(f) && f.speed > 0 && m > Ticks(f, bar) then Ticks(f, bar) else m
  }

  /** One unit moved by `ticks`: the bar is capped, the excess goes to overflow. */
  function Advance(f: Fighter, bar: nat, ticks: nat): Fighter {
    if !Alive(f) then f
    else
      var cur := Reach(f, ticks);
      if cur > bar then f.(bar := bar, overflow := cur - bar) else f.(bar := cur, overflow := 0)
  }

  function AdvanceAll(us: seq<Fighter>, bar: nat, ticks: nat): (r: seq<Fighter>)
    ensures |r| == |us|
  {
    seq(|us|, i requires 0 <= i < |us| => Advance(us[i], bar, ticks))
  }

  predicate ReadyUnit(f: Fighter, bar: nat) {
    Alive(f) && Total(f) >= bar
  }

  /** compareSpeedBar: whether the second unit goes before the first. */
  predicate Yields(f1: Fighter, f2: Fighter) {
    if Total(f1) > Total(f2) then false
    else if Total(f1) == Total(f2) then
      if f1.camp > f2.camp then false
      else if f1.camp == f2.camp then !(f1.uid > f2.uid)
      else true
    else true
  }

  /** The unit the loop has settled on after the first n units. */
  function PickUpTo(us: seq<Fighter>, bar: nat, n: nat): Option<nat>
    requires n <= |us|
  {
    if n == 0 then None
    else
      var best := PickUpTo(us, bar, n - 1);
      if !ReadyUnit(us[n - 1], bar) then best
      else if best.None? || (best.value < |us| && Yields(us[best.value], us[n - 1])) then Some(n - 1)
      else best
  }

  function Pick(us: seq<Fighter>, bar: nat): Option<nat> {
    PickUpTo(us, bar, |us|)
  }

  // ---------- one attack ----------

  function Enemy(camp: nat): nat {
    if camp == 1 then 2 else 1
  }

  /** Unit j is a living enemy of unit i. */
  predicate Aims(us: seq<Fighter>, i: nat, j: nat) {
    i < |us| && j < |us| && us[j].camp == Enemy(us[i].camp) && Alive(us[j])
  }

  /** The default target of unit i: some living enemy, or nobody when there is none. */
  ghost predicate Aimed(us: seq<Fighter>, i: nat, o: Option<nat>) {
    match o
    case Some(j) => Aims(us, i, j)
    case None => forall j: nat :: !Aims(us, i, j)
  }

  /** One and a half times the attack, truncated, less the defence. */
  function Damage(a: Fighter, d: Fighter): nat {
    SafeSub(a.atk * 3 / 2, d.def)
  }

  lemma HalfFloor(n: nat)
    ensures (n as real / 2.0).Floor == n / 2
  {
    if n % 2 == 0 {
      assert n == 2 * (n / 2);
      assert n as real / 2.0 == (n / 2) as real;
    } else {
      assert n == 2 * (n / 2) + 1;
      assert n as real / 2.0 == (n / 2) as real + 0.5;
    }
  }

  /** In numbers: the whole part of 1.5 times the attack, less the defence, at least 0. */
  lemma DamageIs(a: Fighter, d: Fighter)
    ensures var strike := (a.atk as real * 1.5).Floor - d.def;
            Damage(a, d) == if strike > 0 then strike else 0
  {
    assert a.atk as real * 1.5 == (3 * a.atk) as real / 2.0;
    HalfFloor(3 * a.atk);
  }

  function Hit(us: seq<Fighter>, i: nat, j: nat): seq<Fighter>
    requires i < |us| && j < |us|
  {
    us[j := us[j].(hp := SafeSub(us[j].hp, Damage(us[i], us[j])))]
  }

  function Hurt(us: seq<Fighter>, i: nat, o: Option<nat>): (r: seq<Fighter>)
    requires i < |us| && (o.Some? ==> o.value < |us|)
    ensures |r| == |us|
  {
    if o.Some? then Hit(us, i, o.value) else us
  }

  function Rested(us: seq<Fighter>, i: nat): seq<Fighter>
    requires i < |us|
  {
    us[i := us[i].(bar := 0)]
  }

  // ---------- turns, verdicts, battles ----------

  datatype Verdict = Camp1Defeat | Camp2Defeat | AllDefeat | Timeout

  predicate AllDead(us: seq<Fighter>, camp: nat) {
    us == []
    || (AllDead(us[..|us| - 1], camp) && (us[|us| - 1].camp == camp ==> !Alive(us[|us| - 1])))
  }

  lemma {:induction false} AllDeadExactly(us: seq<Fighter>, camp: nat)
    ensures AllDead(us, camp) <==> forall f <- us :: f.camp == camp ==> f.hp == 0
  {
    if us == [] {
    } else {
      var front, last := us[..|us| - 1], us[|us| - 1];
      assert us == front + [last];
      AllDeadExactly(front, camp);
    }
  }

  function Judge(us: seq<Fighter>, round: nat): Option<Verdict> {
    if AllDead(us, 1) && AllDead(us, 2) then Some(AllDefeat)
    else if AllDead(us, 1) then Some(Camp1Defeat)
    else if AllDead(us, 2) then Some(Camp2Defeat)
    else if round >= MAX_ROUND then Some(Timeout)
    else None
  }

  datatype Turn = Turn(before: seq<Fighter>, actor: nat, target: Option<nat>, after: seq<Fighter>)

  function Mid(bar: nat, us: seq<Fighter>): seq<Fighter> {
    AdvanceAll(us, bar, MinTicks(us, bar))
  }

  ghost predicate TurnOk(bar: nat, t: Turn) {
    var mid := Mid(bar, t.before);
    && MinTicks(t.before, bar) < INVALID_TICKS
    && t.actor < |mid| && Pick(mid, bar) == Some(t.actor)
    && Aimed(mid, t.actor, t.target)
    && t.after == Rested(Hurt(mid, t.actor, t.target), t.actor)
  }

  /** The units after the turns played so far. */
  function Now(start: seq<Fighter>, h: seq<Turn>): seq<Fighter> {
    if h == [] then start else h[|h| - 1].after
  }

  ghost predicate DistinctFighters(us: seq<Fighter>) {
    forall i, j :: 0 <= i < j < |us| ==> us[i].uid != us[j].uid
  }

  /** What every round relies on: distinct uids, no living unit with more speed than
      the bar is long, and none further than its own speed past it. */
  ghost predicate Scoped(bar: nat, us: seq<Fighter>) {
    && DistinctFighters(us)
    && (forall f <- us :: Alive(f) ==> f.speed <= bar && Total(f) < bar + f.speed)
  }

  /** The range in which whole numbers are what the 32-bit and single-precision
      arithmetic computes. */
  ghost predicate Exact(bar: nat, us: seq<Fighter>) {
    && bar < FLOAT_EXACT
    && (forall f <- us :: Alive(f) ==> f.atk <= MAX_ATTACK)
  }

  /** Nobody who moves is so slow that an empty bar takes the sentinel or more. */
  ghost predicate NeverSlow(bar: nat, us: seq<Fighter>) {
    forall f <- us :: Moves(f) ==> bar <= (INVALID_TICKS - 1) * f.speed
  }

  /** The bar of a fight that starts with these units. */
  ghost predicate BarFor(bar: nat, us: seq<Fighter>) {
    && (forall f <- us :: Alive(f) ==> BAR_FACTOR * f.speed <= bar)
    && (exists f <- us :: Moves(f) && BAR_FACTOR * f.speed == bar)
  }

  /** A chain of turns from `start`, none of which but the last ended the fight.
      The state a fight starts with is not judged: its first round is always played. */
  ghost predicate Battle(bar: nat, start: seq<Fighter>, h: seq<Turn>) {
    if h == [] then Scoped(bar, start)
    else
      var front, t := h[..|h| - 1], h[|h| - 1];
      && Battle(bar, start, front)
      && TurnOk(bar, t) && t.before == Now(start, front)
      && (front != [] ==> Judge(t.before, |front|) == None)
  }

  // ---------- ceiling division and the least number of ticks ----------

  lemma CeilDivLeast(a: nat, b: nat, t: nat)
    requires b > 0
    ensures CeilDiv(a, b) <= t <==> t * b >= a
  {
    var q := CeilDiv(a, b);
    assert a + b - 1 == q * b + (a + b - 1) % b;
    if q <= t {
      MulMonotone(t, q, b);
    } else {
      MulMonotone(q, t + 1, b);
      assert (t + 1) * b == t * b + b;
    }
  }

  /** A unit's ticks are exactly the least number that takes it to the bar. */
  lemma TicksLeast(f: Fighter, bar: nat, t: nat)
    requires f.speed > 0
    ensures Ticks(f, bar) <= t <==> Reach(f, t) >= bar
  {
    CeilDivLeast(SafeSub(bar, Total(f)), f.speed, t);
    assert t * f.speed >= 0;
  }

  lemma {:induction false} MinTicksBound(us: seq<Fighter>, bar: nat)
    ensures forall f <- us :: Alive(f) && f.speed > 0 ==> MinTicks(us, bar) <= Ticks(f, bar)
    ensures MinTicks(us, bar) < INVALID_TICKS ==>
              exists f <- us :: Alive(f) && f.speed > 0 && Ticks(f, bar) == MinTicks(us, bar)
  {
    if us == [] {
    } else {
      var front, last := us[..|us| - 1], us[|us| - 1];
      MinTicksBound(front, bar);
      assert us == front + [last];
      if Alive(last) && last.speed > 0 && MinTicks(front, bar) > Ticks(last, bar) {
        assert last in us;
      }
    }
  }
}
