/** What holds of every turn and every battle of `CombatModel`. */
module CombatTheorems {
  import opened Arithmetic
  import opened Wrappers
  import opened CombatModel

  // ---------- the speed bar ----------

  lemma TicksBounded(f: Fighter, bar: nat)
    requires f.speed > 0
    ensures Ticks(f, bar) < INVALID_TICKS <==> Reach(f, INVALID_TICKS - 1) >= bar
  {
    TicksLeast(f, bar, INVALID_TICKS - 1);
  }

  /** The run finds no tick count exactly when no living unit that moves would
      reach the bar within 99998 ticks. */
  lemma NoTicksExactly(us: seq<Fighter>, bar: nat)
    ensures MinTicks(us, bar) == INVALID_TICKS
       <==> forall f <- us :: f.hp > 0 && f.speed > 0 ==> 99998 * f.speed + f.bar + f.overflow < bar
  {
    MinTicksBound(us, bar);
    forall f <- us | Moves(f)
      ensures Ticks(f, bar) < INVALID_TICKS <==> Reach(f, INVALID_TICKS - 1) >= bar
    {
      TicksBounded(f, bar);
    }
  }

  lemma TicksBefore(f: Fighter, bar: nat, s: nat)
    requires f.speed > 0 ==> s < Ticks(f, bar)
    requires Total(f) < bar + f.speed
    ensures Reach(f, s) < bar
  {
    if f.speed > 0 { TicksLeast(f, bar, s); }
  }

  /** The number of ticks a run takes is enough for some living unit that moves,
      and one tick less would not have been enough for any living unit. */
  lemma TicksExact(us: seq<Fighter>, bar: nat)
    requires Scoped(bar, us) && MinTicks(us, bar) < INVALID_TICKS
    ensures var t := MinTicks(us, bar);
            && (exists f <- us :: Moves(f) && Reach(f, t) >= bar)
            && (forall f, s: nat :: f in us && Alive(f) && s < t ==> Reach(f, s) < bar)
  {
    var t := MinTicks(us, bar);
    MinTicksBound(us, bar);
    var f1 :| f1 in us && Alive(f1) && f1.speed > 0 && Ticks(f1, bar) == t;
    TicksLeast(f1, bar, t);
    forall f, s: nat | f in us && Alive(f) && s < t ensures Reach(f, s) < bar {
      TicksBefore(f, bar, s);
    }
  }

  /** A unit that is not slow keeps the run going. */
  lemma NotSlowRuns(us: seq<Fighter>, bar: nat)
    requires NeverSlow(bar, us) && exists f <- us :: Moves(f)
    ensures MinTicks(us, bar) < INVALID_TICKS
  {
    NoTicksExactly(us, bar);
    MinTicksBound(us, bar);
  }

  lemma AdvanceTotal(f: Fighter, bar: nat, t: nat)
    ensures Alive(f) ==> Total(Advance(f, bar, t)) == Total(f) + t * f.speed
    ensures !Alive(f) ==> Advance(f, bar, t) == f
    ensures var g := Advance(f, bar, t);
            g.uid == f.uid && g.camp == f.camp && g.atk == f.atk && g.def == f.def
            && g.speed == f.speed && g.hp == f.hp
  {
  }

  lemma AdvanceBelow(f: Fighter, bar: nat, t: nat)
    requires Alive(f) && Total(f) < bar + f.speed
    requires forall s: nat :: s < t ==> Reach(f, s) < bar
    ensures Reach(f, t) < bar + f.speed
  {
    if t > 0 {
      var s := t - 1;
      assert Reach(f, s) < bar;
      assert t * f.speed == s * f.speed + f.speed;
    }
  }

  lemma ScopedLike(bar: nat, us: seq<Fighter>, vs: seq<Fighter>)
    requires Scoped(bar, us) && |vs| == |us|
    requires forall i :: 0 <= i < |us| ==> vs[i].uid == us[i].uid
    requires forall i :: 0 <= i < |us| && Alive(vs[i]) ==> vs[i].speed <= bar && Total(vs[i]) < bar + vs[i].speed
    ensures Scoped(bar, vs)
  {
    forall f <- vs | Alive(f) ensures f.speed <= bar && Total(f) < bar + f.speed {
      var i :| 0 <= i < |vs| && vs[i] == f;
      assert us[i] in us;
    }
  }

  /** Speed-bar exactness. One run conserves bar plus overflow up to ticks times
      speed, keeps every living unit below the bar plus its own speed, leaves the
      dead alone, and makes some unit that moves ready. */
  lemma RunExact(us: seq<Fighter>, bar: nat)
    requires Scoped(bar, us) && MinTicks(us, bar) < INVALID_TICKS
    ensures var t, mid := MinTicks(us, bar), Mid(bar, us);
            && (forall i :: 0 <= i < |us| ==>
                  if Alive(us[i]) then Total(mid[i]) == Total(us[i]) + t * us[i].speed < bar + us[i].speed
                  else mid[i] == us[i])
            && Scoped(bar, mid)
            && (exists i :: 0 <= i < |mid| && ReadyUnit(mid[i], bar))
  {
    var t, mid := MinTicks(us, bar), Mid(bar, us);
    TicksExact(us, bar);
    forall i | 0 <= i < |us|
      ensures if Alive(us[i]) then Total(mid[i]) == Total(us[i]) + t * us[i].speed < bar + us[i].speed
              else mid[i] == us[i]
      ensures mid[i].uid == us[i].uid && mid[i].camp == us[i].camp
      ensures mid[i].speed == us[i].speed && mid[i].hp == us[i].hp
    {
      AdvanceTotal(us[i], bar, t);
      assert us[i] in us;
      if Alive(us[i]) { AdvanceBelow(us[i], bar, t); }
    }
    var f :| f in us && Moves(f) && Reach(f, t) >= bar;
    var i :| 0 <= i < |us| && us[i] == f;
    assert ReadyUnit(mid[i], bar);
    ScopedLike(bar, us, mid);
  }

  /** In the exact range nothing a run computes leaves 32 bits, and every distance
      it divides is below 2^24. */
  lemma RunFits(us: seq<Fighter>, bar: nat)
    requires Scoped(bar, us) && Exact(bar, us) && MinTicks(us, bar) < INVALID_TICKS
    ensures forall i :: 0 <= i < |us| && Alive(us[i]) ==>
              Reach(us[i], MinTicks(us, bar)) < UINT32 && SafeSub(bar, Total(us[i])) < FLOAT_EXACT
  {
    TicksExact(us, bar);
    forall i | 0 <= i < |us| && Alive(us[i]) ensures Reach(us[i], MinTicks(us, bar)) < UINT32 {
      assert us[i] in us;
      AdvanceBelow(us[i], bar, MinTicks(us, bar));
    }
  }

  /** Higher total first; then the higher camp; then the higher uid. */
  predicate GoesBefore(a: Fighter, b: Fighter) {
    Total(a) > Total(b)
    || (Total(a) == Total(b) && (a.camp > b.camp || (a.camp == b.camp && a.uid > b.uid)))
  }

  lemma {:induction false} PickUpToMax(us: seq<Fighter>, bar: nat, n: nat)
    requires n <= |us| && DistinctFighters(us)
    ensures var p := PickUpTo(us, bar, n);
            && (p.None? <==> forall i :: 0 <= i < n ==> !ReadyUnit(us[i], bar))
            && (p.Some? ==> p.value < n && ReadyUnit(us[p.value], bar)
                            && forall i :: 0 <= i < n && i != p.value && ReadyUnit(us[i], bar) ==>
                                 GoesBefore(us[p.value], us[i]))
  {
    if n == 0 {
    } else {
      PickUpToMax(us, bar, n - 1);
    }
  }

  /** The operating unit is the one ready unit that goes before all others. */
  lemma PickIsGreatest(us: seq<Fighter>, bar: nat)
    requires DistinctFighters(us)
    ensures forall i :: 0 <= i < |us| ==>
              (Pick(us, bar) == Some(i) <==>
               ReadyUnit(us[i], bar)
               && forall j :: 0 <= j < |us| && j != i && ReadyUnit(us[j], bar) ==> GoesBefore(us[i], us[j]))
    ensures Pick(us, bar).Some? <==> exists i :: 0 <= i < |us| && ReadyUnit(us[i], bar)
    ensures Pick(us, bar).Some? ==> Pick(us, bar).value < |us|
  {
    PickUpToMax(us, bar, |us|);
  }

  // ---------- single precision ----------

  predicate SameSide(x: real, r: real, y: real) {
    (x <= y ==> r <= y) && (x >= y ==> r >= y)
  }

  predicate Keeps(x: real, r: real, n: nat) {
    SameSide(x, r, n as real) && SameSide(x, r, n as real / 2.0)
  }

  /** What is used of rounding to a 24-bit significand: the relative error is at
      most 2^-24, and rounding is monotone around the numbers it keeps, among them
      the whole and the half numbers of up to 24 bits. */
  ghost predicate Rounds(x: real, r: real) {
    && x * 16777215.0 <= r * 16777216.0 <= x * 16777217.0
    && (forall n: nat :: n <= FLOAT_EXACT ==> Keeps(x, r, n))
  }

  lemma CeilBounds(a: nat, b: nat)
    requires b > 0
    ensures CeilDiv(a, b) * b >= a && (a > 0 ==> CeilDiv(a, b) > 0 && a - 1 >= (CeilDiv(a, b) - 1) * b)
  {
    var q := CeilDiv(a, b);
    assert a + b - 1 == q * b + (a + b - 1) % b;
    assert (q - 1) * b == q * b - b;
  }

  lemma DivideLe(a: real, q: real, b: real)
    requires b > 0.0 && a <= q * b
    ensures a / b <= q
  {
    assert (a / b) * b == a;
  }

  lemma DivideGe(a: real, q: real, b: real)
    requires b > 0.0 && a >= q * b
    ensures a / b >= q
  {
    assert (a / b) * b == a;
  }

  lemma QuotientBounds(a: nat, b: nat)
    requires b > 0
    ensures var x, q := (a as real) / (b as real), CeilDiv(a, b);
            && x <= q as real
            && (a > 0 ==> q > 0 && x >= (q - 1) as real + 1.0 / (b as real))
  {
    var q := CeilDiv(a, b);
    CeilBounds(a, b);
    assert (q * b) as real == (q as real) * (b as real);
    DivideLe(a as real, q as real, b as real);
    if a > 0 {
      assert ((q - 1) * b) as real == ((q - 1) as real) * (b as real);
      DivideGe((a as real) - 1.0, (q - 1) as real, b as real);
      assert ((a as real) - 1.0) / (b as real) == (a as real) / (b as real) - 1.0 / (b as real);
    }
  }

  lemma TimesLess(a: real, b: real, w: real)
    requires a < b && w > 0.0
    ensures a * w < b * w
  {
  }

  lemma SmallQuotient(a: real, b: real)
    requires b > 0.0 && a < 16777216.0
    ensures a / b < 16777216.0 * (1.0 / b)
  {
    var step := 1.0 / b;
    assert a / b == a * step;
    TimesLess(a, 16777216.0, step);
  }

  lemma QuotientSmall(a: nat, b: nat)
    requires b > 0
    ensures CeilDiv(a, b) <= a
  {
    CeilDivLeast(a, b, a);
    MulMonotone(b, 1, a);
    assert a * b == b * a;
  }

  /** The single-precision quotient rounds up to the same whole number as the
      exact one, for every distance below 2^24: this is why the tick count may be
      computed with integers. */
  lemma FloatCeilIsExact(a: nat, b: nat, r: real)
    requires 0 < b && a < FLOAT_EXACT
    requires Rounds((a as real) / (b as real), r)
    ensures r <= CeilDiv(a, b) as real
    ensures CeilDiv(a, b) > 0 ==> r > (CeilDiv(a, b) - 1) as real
  {
    var x, q := (a as real) / (b as real), CeilDiv(a, b);
    QuotientBounds(a, b);
    QuotientSmall(a, b);
    assert Keeps(x, r, q);
    if a > 0 {
      var step := 1.0 / (b as real);
      SmallQuotient(a as real, b as real);
      assert r * 16777216.0 >= x * 16777215.0;
      assert x * 16777216.0 - x > (x - step) * 16777216.0;
    } else {
      assert q == 0 by { CeilDivLeast(0, b, 0); }
    }
  }

  /** Attack times 1.5, rounded to single precision, is the exact product in the
      exact range, so its truncation is three halves by whole-number division. */
  lemma AttackIsExact(atk: nat, r: real)
    requires atk <= 5592405
    requires Rounds((atk as real) * 1.5, r)
    ensures r == (atk as real) * 1.5 && r.Floor == atk * 3 / 2
  {
    var n := 3 * atk;
    assert (atk as real) * 1.5 == n as real / 2.0;
    assert Keeps((atk as real) * 1.5, r, n);
    HalfFloor(n);
  }
}
