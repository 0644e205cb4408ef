/** Fights that do run out of tick counts. Each camp has one unit for every power of
    two up to 2^n as its speed, but for one that never moves. Whenever two neighbours in
    speed are ready together the faster is killed by an enemy of the slower's speed, who
    is killed in turn, so the elapsed ticks double with every other round until whoever
    is left needs more than the sentinel allows. */
module CombatStuck {
  import opened Arithmetic
  import opened Wrappers
  import opened CombatModel
  import opened CombatTheorems
  import opened CombatBattle
  import opened CombatUnits
  import opened CombatRoster
  import opened Combats

  function Pow2(k: nat): (p: nat)
    ensures p >= 1
  {
    if k == 0 then 1 else 2 * Pow2(k - 1)
  }

  lemma {:induction false} PowTimes(a: nat, b: nat)
    ensures Pow2(a) * Pow2(b) == Pow2(a + b)
  {
    if a == 0 {
    } else {
      PowTimes(a - 1, b);
      assert 2 * Pow2(a - 1) * Pow2(b) == 2 * (Pow2(a - 1) * Pow2(b));
    }
  }

  lemma {:induction false} PowBelow(a: nat, b: nat)
    requires a < b
    ensures Pow2(a) < Pow2(b)
  {
    if a == b - 1 {
    } else {
      PowBelow(a, b - 1);
    }
  }

  // ---------- the units ----------

  /** Unit k of a camp: one hit kills it, except the one that nothing hurts and
      that never moves. */
  function Attrs(n: nat, camp: nat, k: nat): map<nat, nat>
    requires k <= n
  {
    if camp == 2 && k == 0 then map[ATTR_HP := 1, ATTR_DEF := 1]
    else map[ATTR_HP := 1, ATTR_ATK := 1, ATTR_SPEED := Pow2(n - k)]
  }

  function Camp(n: nat, camp: nat): CampData {
    CampData(camp, camp, 1, seq(n + 1, k requires 0 <= k <= n => UnitData(camp * (n + 1) + k, Attrs(n, camp, k))))
  }

  function Ladder(n: nat): InitData {
    InitData([Camp(n, 1), Camp(n, 2)])
  }

  /** First camp 1, then camp 2, each from the fastest to the slowest. */
  function Line(n: nat): (us: seq<Fighter>)
    ensures |us| == 2 * n + 2
  {
    Members(Camp(n, 1)) + Members(Camp(n, 2))
  }

  /** Where unit k of camp 2 stands in the line; unit k of camp 1 stands at k. */
  function Second(n: nat, k: nat): nat {
    n + 1 + k
  }

  function Rank(n: nat, x: nat): nat {
    if x <= n then x else SafeSub(x, n + 1)
  }

  function BarOf(n: nat): nat {
    BAR_FACTOR * Pow2(n)
  }

  // ---------- one round ----------

  lemma ReachLater(f: Fighter, s: nat, t: nat)
    requires s <= t
    ensures Reach(f, s) <= Reach(f, t)
    ensures s < t && f.speed > 0 ==> Reach(f, s) < Reach(f, t)
  {
    MulMonotone(t, s, f.speed);
    if s < t {
      MulMonotone(t, s + 1, f.speed);
      assert (s + 1) * f.speed == s * f.speed + f.speed;
    }
  }

  /** A run in which nobody gets past the bar and somebody gets to it. */
  lemma RunTakes(us: seq<Fighter>, bar: nat, ticks: nat, i: nat)
    requires Scoped(bar, us) && ticks < INVALID_TICKS
    requires i < |us| && Moves(us[i]) && Reach(us[i], ticks) == bar
    requires forall f <- us :: Alive(f) ==> Reach(f, ticks) <= bar
    ensures MinTicks(us, bar) == ticks
  {
    var m, f := MinTicks(us, bar), us[i];
    ReachLater(f, ticks, INVALID_TICKS - 1);
    NoTicksExactly(us, bar);
    assert f in us;
    TicksExact(us, bar);
    hide Scoped;
    hide MinTicks;
    var g :| g in us && Moves(g) && Reach(g, m) >= bar;
    if m < ticks { ReachLater(g, m, ticks); }
  }

  /** What a round leaves of everyone: nothing but bars and the target's hit points
      change. */
  ghost predicate After(us: seq<Fighter>, vs: seq<Fighter>, ticks: nat, i: nat, j: nat)
    requires i < |us| && j < |us|
  {
    && |vs| == |us|
    && (forall x :: 0 <= x < |us| ==>
          && vs[x].uid == us[x].uid && vs[x].camp == us[x].camp && vs[x].speed == us[x].speed
          && vs[x].atk == us[x].atk && vs[x].def == us[x].def
          && vs[x].hp == (if x == j then SafeSub(us[x].hp, Damage(us[i], us[j])) else us[x].hp)
          && (Alive(us[x]) ==> Total(vs[x]) == if x == i then 0 else Reach(us[x], ticks)))
  }

  /** Nobody gets past the bar, and of those who get to it unit i is of the higher camp. */
  ghost predicate Due(bar: nat, us: seq<Fighter>, ticks: nat, i: nat) {
    && i < |us| && Moves(us[i]) && Reach(us[i], ticks) == bar
    && (forall x :: 0 <= x < |us| && Alive(us[x]) ==> Reach(us[x], ticks) <= bar)
    && (forall x :: 0 <= x < |us| && x != i && Alive(us[x]) && Reach(us[x], ticks) == bar ==> us[x].camp < us[i].camp)
  }

  /** The unit that is due acts. */
  lemma Acts(bar: nat, us: seq<Fighter>, ticks: nat, i: nat)
    requires Scoped(bar, us) && ticks < INVALID_TICKS && Due(bar, us, ticks, i)
    ensures ToAct(bar, us, i) && Mid(bar, us)[i].bar == bar
    ensures forall x :: 0 <= x < |us| && Alive(us[x]) ==> Total(Mid(bar, us)[x]) == Reach(us[x], ticks)
  {
    forall f <- us | Alive(f) ensures Reach(f, ticks) <= bar {
      var x :| 0 <= x < |us| && us[x] == f;
    }
    RunTakes(us, bar, ticks, i);
    RunExact(us, bar);
    MidSame(us, bar);
    var mid := Mid(bar, us);
    PickIsGreatest(mid, bar);
    BarBounds(us, bar, i);
    hide Pick;
    hide Mid;
    forall x | 0 <= x < |us| ensures ReadyUnit(mid[x], bar) ==> x == i || GoesBefore(mid[i], mid[x]) {
      assert us[x] in us;
    }
  }

  lemma Round(bar: nat, us: seq<Fighter>, ticks: nat, i: nat, j: nat) returns (t: Turn)
    requires Scoped(bar, us) && ticks < INVALID_TICKS && Due(bar, us, ticks, i)
    requires Aims(us, i, j)
    ensures t.before == us && TurnOk(bar, t) && After(us, t.after, ticks, i, j)
  {
    Acts(bar, us, ticks, i);
    MidSame(us, bar);
    hide Scoped;
    hide Pick;
    hide Mid;
    var mid := Mid(bar, us);
    t := Turn(us, i, Some(j), Rested(Hurt(mid, i, Some(j)), i));
  }

  // ---------- all the rounds ----------

  ghost predicate Built(n: nat, us: seq<Fighter>) {
    && |us| == 2 * n + 2
    && forall x :: 0 <= x < |us| ==>
         var f := us[x];
         && f.uid == n + 1 + x && f.camp == (if x <= n then 1 else 2)
         && f.speed == (if x == n + 1 then 0 else Pow2(n - Rank(n, x)))
         && f.atk == (if x == n + 1 then 0 else 1) && f.def == (if x == n + 1 then 1 else 0)
  }

  predicate Lives(n: nat, k: nat, middle: bool, x: nat) {
    k <= x <= n || x == n + 1 || x > Second(n, k) || (middle && x == Second(n, k))
  }

  function Filled(n: nat, k: nat, middle: bool, x: nat): nat
    requires k <= n && x < 2 * n + 2
  {
    if x == n + 1 || x == Second(n, k) then 0
    else if x == k then if middle then BarOf(n) else 0
    else BarOf(SafeSub(n + k, Rank(n, x)))
  }

  /** Unit k of camp 1 is the fastest alive: all of lower rank are dead, but for the
      unit that never moves. In the middle of a pair of rounds unit k has yet to act,
      and that of camp 2 has just acted. */
  ghost predicate Step(n: nat, k: nat, middle: bool, us: seq<Fighter>)
    requires k <= n
  {
    && Built(n, us)
    && forall x :: 0 <= x < |us| ==>
         && us[x].hp == (if Lives(n, k, middle, x) then 1 else 0)
         && (Lives(n, k, middle, x) ==> Total(us[x]) == Filled(n, k, middle, x))
  }

  lemma Ticked(n: nat, k: nat, r: nat)
    requires k <= n && r <= n
    ensures BarOf(k) * Pow2(n - r) == BarOf(n + k - r)
  {
    PowTimes(k, n - r);
    assert BAR_FACTOR * Pow2(k) * Pow2(n - r) == BAR_FACTOR * (Pow2(k) * Pow2(n - r));
  }

  /** How far everyone gets in the first round of a pair. */
  lemma Climb(n: nat, k: nat, us: seq<Fighter>, x: nat)
    requires k < n && x < 2 * n + 2 && Step(n, k, false, us) && Lives(n, k, false, x)
    ensures Reach(us[x], BarOf(k)) ==
              if x == n + 1 then 0 else if x == k then BarOf(n) else BarOf(SafeSub(n + k + 1, Rank(n, x)))
    ensures Reach(us[x], BarOf(k)) <= BarOf(n)
    ensures Reach(us[x], BarOf(k)) == BarOf(n) <==> x == k || x == k + 1 || x == Second(n, k + 1)
  {
    var r := Rank(n, x);
    if x != n + 1 {
      Ticked(n, k, r);
      if r > k + 1 { PowBelow(n + k + 1 - r, n); }
    }
  }

  lemma FirstDue(n: nat, k: nat, us: seq<Fighter>)
    requires k < n && Step(n, k, false, us)
    ensures Due(BarOf(n), us, BarOf(k), Second(n, k + 1)) && Aims(us, Second(n, k + 1), k)
  {
    forall x: nat | x < 2 * n + 2 && Lives(n, k, false, x)
      ensures Reach(us[x], BarOf(k)) <= BarOf(n)
      ensures Reach(us[x], BarOf(k)) == BarOf(n) <==> x == k || x == k + 1 || x == Second(n, k + 1)
    {
      Climb(n, k, us, x);
    }
  }

  lemma FirstLeaves(n: nat, k: nat, us: seq<Fighter>, vs: seq<Fighter>)
    requires k < n && Step(n, k, false, us) && After(us, vs, BarOf(k), Second(n, k + 1), k)
    ensures Step(n, k + 1, true, vs)
  {
    forall x: nat | x < 2 * n + 2 && Lives(n, k, false, x)
      ensures Reach(us[x], BarOf(k)) ==
                if x == n + 1 then 0 else if x == k then BarOf(n) else BarOf(SafeSub(n + k + 1, Rank(n, x)))
    {
      Climb(n, k, us, x);
    }
  }

  /** First an enemy kills the fastest unit of camp 1, whose bar fills with its own. */
  lemma FirstOfPair(n: nat, k: nat, us: seq<Fighter>) returns (t: Turn)
    requires k < n && Step(n, k, false, us) && Scoped(BarOf(n), us) && BarOf(k) < INVALID_TICKS
    ensures t.before == us && TurnOk(BarOf(n), t) && Step(n, k + 1, true, t.after)
  {
    FirstDue(n, k, us);
    hide Scoped;
    hide TurnOk;
    hide Step;
    hide Due;
    t := Round(BarOf(n), us, BarOf(k), Second(n, k + 1), k);
    FirstLeaves(n, k, us, t.after);
  }

  lemma SecondDue(n: nat, k: nat, us: seq<Fighter>)
    requires 1 <= k <= n && Step(n, k, true, us)
    ensures Due(BarOf(n), us, 0, k) && Aims(us, k, Second(n, k))
  {
    forall x: nat | x < 2 * n + 2 && Lives(n, k, true, x) && Rank(n, x) > k
      ensures BarOf(SafeSub(n + k, Rank(n, x))) < BarOf(n)
    {
      PowBelow(n + k - Rank(n, x), n);
    }
  }

  lemma SecondLeaves(n: nat, k: nat, us: seq<Fighter>, vs: seq<Fighter>)
    requires 1 <= k <= n && Step(n, k, true, us) && After(us, vs, 0, k, Second(n, k))
    ensures Step(n, k, false, vs)
  {
  }

  /** Then the next of camp 1, ready as well, kills that enemy at once. */
  lemma SecondOfPair(n: nat, k: nat, us: seq<Fighter>) returns (t: Turn)
    requires 1 <= k <= n && Step(n, k, true, us) && Scoped(BarOf(n), us)
    ensures t.before == us && TurnOk(BarOf(n), t) && Step(n, k, false, t.after)
  {
    SecondDue(n, k, us);
    hide Scoped;
    hide TurnOk;
    hide Step;
    hide Due;
    t := Round(BarOf(n), us, 0, k, Second(n, k));
    SecondLeaves(n, k, us, t.after);
  }

  ghost predicate Unmoved(n: nat, us: seq<Fighter>) {
    Built(n, us) && forall x :: 0 <= x < |us| ==> us[x].hp == 1 && us[x].bar == us[x].overflow == 0
  }

  lemma OpeningDue(n: nat, us: seq<Fighter>)
    requires Unmoved(n, us)
    ensures Due(BarOf(n), us, BAR_FACTOR, 0) && Aims(us, 0, n + 1)
  {
    forall x | 0 <= x < 2 * n + 2 && Rank(n, x) > 0 ensures Pow2(n - Rank(n, x)) < Pow2(n) {
      PowBelow(n - Rank(n, x), n);
    }
  }

  lemma OpeningLeaves(n: nat, us: seq<Fighter>, vs: seq<Fighter>)
    requires Unmoved(n, us) && After(us, vs, BAR_FACTOR, 0, n + 1)
    ensures Step(n, 0, false, vs)
  {
  }

  /** The fastest of all is the first to act, in vain. */
  lemma Opening(n: nat, us: seq<Fighter>) returns (t: Turn)
    requires Unmoved(n, us) && Scoped(BarOf(n), us)
    ensures t.before == us && TurnOk(BarOf(n), t) && Step(n, 0, false, t.after)
  {
    OpeningDue(n, us);
    hide Scoped;
    hide TurnOk;
    hide Step;
    hide Due;
    hide Unmoved;
    t := Round(BarOf(n), us, BAR_FACTOR, 0, n + 1);
    OpeningLeaves(n, us, t.after);
  }

  lemma LineUnmoved(n: nat)
    ensures Unmoved(n, Line(n))
  {
    forall x | 0 <= x < 2 * n + 2
      ensures var k := Rank(n, x);
              Line(n)[x] == NewFighter(if x <= n then 1 else 2, n + 1 + x, Attrs(n, if x <= n then 1 else 2, k))
    {
      if x <= n {
        assert Line(n)[x] == Members(Camp(n, 1))[x];
      } else {
        assert Line(n)[x] == Members(Camp(n, 2))[x - n - 1];
      }
    }
  }

  lemma StillBoth(n: nat, k: nat, middle: bool, us: seq<Fighter>, round: nat)
    requires k <= n && Step(n, k, middle, us) && round < MAX_ROUND
    ensures Judge(us, round) == None
  {
    AllDeadExactly(us, 1);
    AllDeadExactly(us, 2);
    assert us[k] in us && us[n + 1] in us;
  }

  /** One more round. */
  lemma Extend(bar: nat, start: seq<Fighter>, h: seq<Turn>, t: Turn)
    requires Running(bar, start, h) && t.before == Now(start, h) && TurnOk(bar, t)
    ensures Battle(bar, start, h + [t]) && Now(start, h + [t]) == t.after
  {
    assert (h + [t])[..|h|] == h;
  }

  ghost predicate Played(n: nat, h: seq<Turn>) {
    Battle(BarOf(n), Line(n), h)
  }

  /** One half of a pair. */
  lemma FirstHalf(n: nat, k: nat, h: seq<Turn>) returns (g: seq<Turn>)
    requires k < n && |h| < MAX_ROUND && BarOf(k) < INVALID_TICKS
    requires Played(n, h) && Step(n, k, false, Now(Line(n), h))
    ensures Played(n, g) && |g| == |h| + 1 && Step(n, k + 1, true, Now(Line(n), g))
  {
    hide Battle;
    hide Scoped;
    hide Step;
    hide Line;
    hide TurnOk;
    var us := Now(Line(n), h);
    BattleScoped(BarOf(n), Line(n), h);
    StillBoth(n, k, false, us, |h|);
    var t := FirstOfPair(n, k, us);
    Extend(BarOf(n), Line(n), h, t);
    g := h + [t];
  }

  lemma SecondHalf(n: nat, k: nat, h: seq<Turn>) returns (g: seq<Turn>)
    requires 1 <= k <= n && |h| < MAX_ROUND
    requires Played(n, h) && Step(n, k, true, Now(Line(n), h))
    ensures Played(n, g) && |g| == |h| + 1 && Step(n, k, false, Now(Line(n), g))
  {
    hide Battle;
    hide Scoped;
    hide Step;
    hide Line;
    hide TurnOk;
    var us := Now(Line(n), h);
    BattleScoped(BarOf(n), Line(n), h);
    StillBoth(n, k, true, us, |h|);
    var t := SecondOfPair(n, k, us);
    Extend(BarOf(n), Line(n), h, t);
    g := h + [t];
  }

  lemma FirstRound(n: nat) returns (h: seq<Turn>)
    requires Played(n, [])
    ensures Played(n, h) && |h| == 1 && Step(n, 0, false, Now(Line(n), h))
  {
    LineUnmoved(n);
    BattleScoped(BarOf(n), Line(n), []);
    hide Battle;
    hide Scoped;
    hide Step;
    hide Line;
    hide TurnOk;
    var t := Opening(n, Line(n));
    Extend(BarOf(n), Line(n), [], t);
    h := [] + [t];
  }

  /** After k pairs of rounds the first k units of camp 1 are dead, and those of camp 2. */
  lemma {:induction false} Pairs(n: nat, k: nat) returns (h: seq<Turn>)
    requires k <= n && 2 * k + 1 < MAX_ROUND && (k > 0 ==> BarOf(k - 1) < INVALID_TICKS)
    requires Played(n, [])
    ensures Played(n, h) && |h| == 2 * k + 1 && Step(n, k, false, Now(Line(n), h))
  {
    hide Played;
    hide Step;
    hide Line;
    if k == 0 {
      h := FirstRound(n);
    } else {
      h := Pairs(n, k - 1);
      h := FirstHalf(n, k - 1, h);
      h := SecondHalf(n, k, h);
    }
  }

  // ---------- the failing fight ----------

  lemma LadderIs(n: nat)
    ensures var cs := Ladder(n).campVec;
            && Everyone(cs) == Line(n) && forall c <- cs :: 1 <= c.camp <= 2 && c.units != [] && c.kind != KIND_USER
  {
    var cs := Ladder(n).campVec;
    var front := cs[..1];
    assert Everyone(front[..0]) == [];
    assert Everyone(front) == [] + Members(cs[0]);
    assert Everyone(cs) == Everyone(front) + Members(cs[1]);
  }

  lemma UnmovedStarts(n: nat, us: seq<Fighter>)
    requires Unmoved(n, us) && Pow2(n) <= MAX_SPEED
    ensures Starts(us) && BarFor(BarOf(n), us)
    ensures forall f :: f in us <==> Stands(us, f)
  {
    forall x | 0 <= x < |us| ensures us[x].speed <= Pow2(n) && LastOf(us, x) {
      if 0 < Rank(n, x) { PowBelow(n - Rank(n, x), n); }
    }
    assert us[0] in us && Moves(us[0]);
    hide LastOf;
  }

  lemma MulLess(a: nat, b: nat, w: nat)
    requires a < b && w > 0
    ensures a * w < b * w
  {
    MulMonotone(b, a + 1, w);
    assert (a + 1) * w == a * w + w;
  }

  /** Once the elapsed ticks have reached the sentinel, whoever is left is too slow. */
  lemma TooSlow(n: nat, k: nat, us: seq<Fighter>, x: nat)
    requires k <= n && BarOf(k) >= INVALID_TICKS && Step(n, k, false, us)
    requires x < |us| && Moves(us[x])
    ensures Reach(us[x], INVALID_TICKS - 1) < BarOf(n)
  {
    var r := Rank(n, x);
    Ticked(n, k, r);
    MulLess(INVALID_TICKS - 1, BarOf(k), Pow2(n - r));
    if r > k + 1 { PowBelow(n + k + 1 - r, n); }
  }

  lemma NobodyLeft(n: nat, k: nat, us: seq<Fighter>)
    requires k <= n && BarOf(k) >= INVALID_TICKS && Step(n, k, false, us)
    ensures Stuck(BarOf(n), us)
  {
    forall f <- us | Moves(f) ensures Reach(f, INVALID_TICKS - 1) < BarOf(n) {
      var x :| 0 <= x < |us| && us[x] == f;
      TooSlow(n, k, us, x);
    }
    NoTicksExactly(us, BarOf(n));
  }

  /** The data of such a fight are in scope; these are its units, in the order of the map. */
  lemma LadderFits(n: nat)
    requires Pow2(n) <= MAX_SPEED
    ensures var data, start := Ladder(n), Line(n);
            && Admissible(data) && InScope(data) && !Users(data)
            && Enlisted(start, data) && Ascending(start) && Starts(start) && BarFor(BarOf(n), start)
  {
    LadderIs(n);
    LineUnmoved(n);
    UnmovedStarts(n, Line(n));
  }

  lemma Fourteen()
    ensures BarOf(13) == 57344 && BarOf(14) == 114688
  {
    assert Pow2(13) == 8192 && Pow2(14) == 16384;
  }

  /** From fifteen units to a camp on, 29 rounds can lead to a state without a unit to
      act, with both camps alive. */
  lemma LadderStops(n: nat) returns (h: seq<Turn>)
    requires n >= 14 && Pow2(n) <= MAX_SPEED
    ensures |h| == 29 && Running(BarOf(n), Line(n), h) && Stuck(BarOf(n), Now(Line(n), h))
  {
    LadderFits(n);
    StartIsBattle(BarOf(n), Line(n));
    Fourteen();
    h := Pairs(n, 14);
    hide Battle;
    StillBoth(n, 14, false, Now(Line(n), h), |h|);
    NobodyLeft(n, 14, Now(Line(n), h));
  }

  /** With fewer nobody is too slow, whatever the targets. */
  lemma ShortLadder(n: nat)
    requires n < 14
    ensures NeverSlow(BarOf(n), Line(n))
  {
    LineUnmoved(n);
    Fourteen();
    if n < 13 { PowBelow(n, 13); }
    hide Line;
    forall f <- Line(n) | Moves(f) ensures BarOf(n) <= (INVALID_TICKS - 1) * f.speed {
      MulMonotone(f.speed, 1, INVALID_TICKS - 1);
    }
  }

  /** Which of these fights can be left without a unit to act. */
  lemma LadderExactly(n: nat)
    requires Pow2(n) <= MAX_SPEED
    ensures n >= 14 <==> exists h :: Running(BarOf(n), Line(n), h) && Stuck(BarOf(n), Now(Line(n), h))
  {
    if n >= 14 {
      var h := LadderStops(n);
    } else {
      LadderFits(n);
      ShortLadder(n);
      hide Line;
      hide Battle;
      hide NeverSlow;
      forall h | Running(BarOf(n), Line(n), h) ensures !Stuck(BarOf(n), Now(Line(n), h)) {
        NeverSlowNeverStuck(BarOf(n), Line(n), h);
      }
    }
  }

  lemma OneBar(us: seq<Fighter>, a: nat, b: nat)
    requires BarFor(a, us) && BarFor(b, us)
    ensures a == b
  {
  }

  /** Two lists of the units of the same data, in the order of the map. */
  lemma SameUnits(us: seq<Fighter>, vs: seq<Fighter>, data: InitData)
    requires Ascending(us) && Ascending(vs) && Enlisted(us, data) && Enlisted(vs, data)
    ensures us == vs
  {
    SameOrder(us, vs);
  }

  lemma LadderMoves(n: nat)
    requires Pow2(n) <= MAX_SPEED
    ensures SomebodyMoves(Ladder(n))
  {
    LadderFits(n);
    hide Line;
    hide Ladder;
    hide Enlisted;
    EnlistedLike(Line(n), Ladder(n));
  }

  /** Such a fight on the objects: if the targets drawn are those of that battle, the
      fight dereferences a null operating unit after 29 rounds. */
  method PlayLadder(c: Combat) returns (ok: bool, ghost h: seq<Turn>)
    requires c.Blank()
    modifies c
    ensures ok && (c.Over() || c.Broken())
    ensures |h| == 29 && Running(c.speedBar, c.start, h) && Stuck(c.speedBar, Now(c.start, h))
    ensures (forall k :: 0 <= k < |c.history| && k < |h| ==> c.history[k].target == h[k].target) ==>
              c.crashed && c.history == h
  {
    hide Line;
    hide Ladder;
    hide Everyone;
    hide Enlisted;
    hide Ascending;
    hide BarFor;
    hide InScope;
    hide Starts;
    hide SomebodyMoves;
    hide NobodyTooSlow;
    hide Running;
    hide Stuck;
    var n := 14;
    Fourteen();
    LadderFits(n);
    LadderMoves(n);
    h := LadderStops(n);
    ok := c.Init(Ladder(n));
    SameUnits(c.start, Line(n), Ladder(n));
    OneBar(c.start, c.speedBar, BarOf(n));
    if forall k :: 0 <= k < |c.history| && k < |h| ==> c.history[k].target == h[k].target { c.StopsThere(h); }
  }
}
