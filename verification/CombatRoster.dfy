/** What a fight starts from: the initial data, and the ordered map its units and
    camps are put into. */
module CombatRoster {
  import opened CombatModel
  import opened CombatTheorems
  import opened CombatBattle
  import opened CombatUnits

  datatype UnitData = UnitData(uid: nat, attrs: map<nat, nat>)
  datatype CampData = CampData(uid: nat, camp: nat, kind: nat, units: seq<UnitData>)
  datatype InitData = InitData(campVec: seq<CampData>)

  // ---------- the ordered map ----------

  function UnitUid(u: BattleUnit): nat { u.uid }

  function CampNumber(c: CampUnit): nat { c.camp }

  /** std::map's assignment: in place of the entry with the same key, else where the
      key belongs. The map is the sequence of its entries by key. */
  function Place<T>(vs: seq<T>, f: T, key: T -> nat): seq<T> {
    if vs == [] then [f]
    else
      var front, last := vs[..|vs| - 1], vs[|vs| - 1];
      if key(last) < key(f) then vs + [f]
      else if key(last) == key(f) then front + [f]
      else Place(front, f, key) + [last]
  }

  /** Assignment keeps the new entry and every entry with another key, and brings
      in nothing else. */
  lemma {:induction false} PlaceKeeps<T>(vs: seq<T>, f: T, key: T -> nat)
    ensures f in Place(vs, f, key)
    ensures forall g <- Place(vs, f, key) :: g == f || g in vs
    ensures forall g <- vs :: key(g) != key(f) ==> g in Place(vs, f, key)
  {
    if vs == [] {
    } else {
      var front, last := vs[..|vs| - 1], vs[|vs| - 1];
      assert vs == front + [last];
      PlaceKeeps(front, f, key);
    }
  }

  /** On an ordered map it keeps the order, and no other entry has the new key. */
  lemma {:induction false} PlaceSorts<T>(vs: seq<T>, f: T, key: T -> nat)
    requires forall i, j :: 0 <= i < j < |vs| ==> key(vs[i]) < key(vs[j])
    ensures var r := Place(vs, f, key);
            && (forall i, j :: 0 <= i < j < |r| ==> key(r[i]) < key(r[j]))
            && (forall g <- r :: g == f || key(g) != key(f))
  {
    if vs == [] {
    } else {
      var front, last := vs[..|vs| - 1], vs[|vs| - 1];
      if key(last) > key(f) {
        PlaceSorts(front, f, key);
        PlaceKeeps(front, f, key);
        var p := Place(front, f, key);
        forall i | 0 <= i < |p| ensures key(p[i]) < key(last) {
          assert p[i] == f || p[i] in front;
        }
      } else {
        forall i | 0 <= i < |front| ensures key(front[i]) < key(last) {
          assert front[i] == vs[i];
        }
      }
    }
  }

  lemma PlaceTwo<T>(a: T, b: T, key: T -> nat)
    ensures Place([], a, key) == [a]
    ensures Place([a], b, key) == if key(a) < key(b) then [a, b] else if key(a) == key(b) then [b] else [b, a]
  {
    assert [a][..0] == [];
    assert [] + [b] == [b];
    assert Place([], b, key) == [b];
  }

  lemma SeenIn(us: seq<BattleUnit>, u: BattleUnit)
    requires u in us
    ensures u.View() in Views(us)
  {
    var i :| 0 <= i < |us| && us[i] == u;
    assert Views(us)[i] == u.View();
  }

  /** The same of the units' values. */
  lemma ViewsAfter(was: seq<BattleUnit>, now: seq<BattleUnit>, u: BattleUnit)
    requires u in now && forall x <- now :: x == u || (x in was && x.uid != u.uid)
    requires forall x <- was :: x.uid != u.uid ==> x in now
    ensures forall g :: g in Views(now) <==> g == u.View() || (g in Views(was) && g.uid != u.uid)
  {
    SeenIn(now, u);
    forall g <- Views(now) ensures g == u.View() || (g in Views(was) && g.uid != u.uid) {
      var i :| 0 <= i < |now| && g == now[i].View();
      assert now[i] in now;
      if now[i] != u { SeenIn(was, now[i]); }
    }
    forall g <- Views(was) | g.uid != u.uid ensures g in Views(now) {
      var i :| 0 <= i < |was| && g == was[i].View();
      assert was[i] in was;
      SeenIn(now, was[i]);
    }
  }

  ghost predicate LastOf(fs: seq<Fighter>, i: int)
    requires 0 <= i < |fs|
  {
    forall j :: i < j < |fs| ==> fs[j].uid != fs[i].uid
  }

  /** Of units with the same uid the one listed last stands. */
  ghost predicate Stands(fs: seq<Fighter>, f: Fighter) {
    exists i :: 0 <= i < |fs| && fs[i] == f && LastOf(fs, i)
  }

  lemma StandsSnoc(fs: seq<Fighter>, f: Fighter, g: Fighter)
    ensures Stands(fs + [f], g) <==> g == f || (Stands(fs, g) && g.uid != f.uid)
  {
    var gs := fs + [f];
    if g == f {
      assert gs[|fs|] == f && LastOf(gs, |fs|);
    } else {
      if Stands(gs, g) {
        var i :| 0 <= i < |gs| && gs[i] == g && LastOf(gs, i);
        assert gs[|fs|] == f && fs[i] == g;
        forall j | i < j < |fs| ensures fs[j].uid != g.uid { assert gs[j] == fs[j]; }
        assert LastOf(fs, i);
      }
      if Stands(fs, g) && g.uid != f.uid {
        var i :| 0 <= i < |fs| && fs[i] == g && LastOf(fs, i);
        assert gs[i] == g && LastOf(gs, i);
      }
    }
  }

  /** The map holds exactly the units that stand. */
  ghost predicate HoldsUnits(us: seq<BattleUnit>, fs: seq<Fighter>)
    reads us
  {
    Sorted(us) && forall g :: g in Views(us) <==> Stands(fs, g)
  }

  lemma PlaceHolds(us: seq<BattleUnit>, u: BattleUnit, fs: seq<Fighter>)
    requires HoldsUnits(us, fs)
    ensures HoldsUnits(Place(us, u, UnitUid), fs + [u.View()])
    ensures forall x <- Place(us, u, UnitUid) :: x == u || x in us
  {
    PlaceKeeps(us, u, UnitUid);
    PlaceSorts(us, u, UnitUid);
    ViewsAfter(us, Place(us, u, UnitUid), u);
    forall g: Fighter ensures Stands(fs + [u.View()], g) <==> g == u.View() || (Stands(fs, g) && g.uid != u.uid) {
      StandsSnoc(fs, u.View(), g);
    }
  }

  // ---------- the initial data ----------

  /** What init refuses: anything but two different camps that both have units. */
  predicate Admissible(data: InitData) {
    && |data.campVec| == 2 && data.campVec[0].camp != data.campVec[1].camp
    && data.campVec[0].units != [] && data.campVec[1].units != []
  }

  predicate Users(data: InitData) {
    exists c <- data.campVec :: c.kind == KIND_USER
  }

  /** A camp as it is seated at first. */
  ghost predicate Seat(u: CampUnit, c: CampData)
    reads u
  {
    && u.uid == c.uid && u.camp == c.camp && u.kind == c.kind
    && u.state == (if c.kind == KIND_USER then Loading else LoadingEnd)
    && u.auto == (c.kind != KIND_USER)
  }

  /** The camps of the data have their seats, in the order of their numbers. */
  ghost predicate SeatedIn(us: seq<CampUnit>, cs: seq<CampData>)
    reads us
  {
    && |us| == |cs|
    && (|cs| == 1 ==> Seat(us[0], cs[0]))
    && (|cs| == 2 ==>
          if cs[0].camp < cs[1].camp then Seat(us[0], cs[0]) && Seat(us[1], cs[1])
          else Seat(us[0], cs[1]) && Seat(us[1], cs[0]))
  }

  lemma SeatFirst(us: seq<CampUnit>, p: CampUnit, cs: seq<CampData>)
    requires us == [] && |cs| == 1 && Seat(p, cs[0])
    ensures SeatedIn(Place(us, p, CampNumber), cs)
    ensures forall q <- Place(us, p, CampNumber) :: q == p
  {
    PlaceTwo(p, p, CampNumber);
  }

  lemma SeatSecond(us: seq<CampUnit>, p: CampUnit, front: seq<CampData>, cs: seq<CampData>)
    requires |cs| == 2 && front == [cs[0]] && SeatedIn(us, front) && Seat(p, cs[1])
    requires cs[0].camp != cs[1].camp
    ensures SeatedIn(Place(us, p, CampNumber), cs)
    ensures forall q <- Place(us, p, CampNumber) :: q == p || q in us
  {
    assert us == [us[0]];
    PlaceTwo(us[0], p, CampNumber);
  }

  function Members(c: CampData): (r: seq<Fighter>)
    ensures |r| == |c.units|
  {
    seq(|c.units|, j requires 0 <= j < |c.units| => NewFighter(c.camp, c.units[j].uid, c.units[j].attrs))
  }

  function Everyone(camps: seq<CampData>): seq<Fighter> {
    if camps == [] then [] else Everyone(camps[..|camps| - 1]) + Members(camps[|camps| - 1])
  }

  /** Unit j of camp i of the data, as it enters the fight. */
  predicate Listed(camps: seq<CampData>, f: Fighter, i: int, j: int) {
    && 0 <= i < |camps| && 0 <= j < |camps[i].units|
    && var u := camps[i].units[j];
       && f.uid == u.uid && f.camp == camps[i].camp && f.bar == 0 && f.overflow == 0
       && f.hp == (if 1 in u.attrs then u.attrs[1] else 0) && f.atk == (if 2 in u.attrs then u.attrs[2] else 0)
       && f.def == (if 3 in u.attrs then u.attrs[3] else 0) && f.speed == (if 4 in u.attrs then u.attrs[4] else 0)
  }

  lemma {:induction false} EveryoneListed(camps: seq<CampData>, f: Fighter)
    ensures f in Everyone(camps) <==> exists i, j :: Listed(camps, f, i, j)
  {
    if camps == [] {
    } else {
      var n := |camps| - 1;
      var front, last := camps[..n], camps[n];
      EveryoneListed(front, f);
      forall i, j ensures Listed(front, f, i, j) <==> i < n && Listed(camps, f, i, j) {
      }
      forall j ensures Listed(camps, f, n, j) <==> 0 <= j < |Members(last)| && Members(last)[j] == f {
      }
      assert Everyone(camps) == Everyone(front) + Members(last);
      if exists i, j :: Listed(camps, f, i, j) {
        var i, j :| Listed(camps, f, i, j);
        assert i < n ==> Listed(front, f, i, j);
      }
    }
  }

  /** What the fight asks of its data: the living within the range of the 32-bit and
      single-precision arithmetic. Units may be dead, still or listed twice. */
  ghost predicate InScope(data: InitData) {
    forall f <- Everyone(data.campVec) :: Alive(f) ==> f.speed <= MAX_SPEED && f.atk <= MAX_ATTACK
  }

  /** These are the units of the data. */
  ghost predicate Enlisted(us: seq<Fighter>, data: InitData) {
    forall f :: f in us <==> Stands(Everyone(data.campVec), f)
  }

  /** Units as a fight starts with them. */
  ghost predicate Starts(us: seq<Fighter>) {
    && DistinctFighters(us)
    && (forall f <- us :: f.bar == f.overflow == 0)
    && (forall f <- us :: Alive(f) ==> f.speed <= MAX_SPEED && f.atk <= MAX_ATTACK)
  }

  /** No unit that moves is slower than the highest speed by more than the sentinel
      allows: 7 times the one is within 99998 times the other. */
  ghost predicate NoneTooSlow(us: seq<Fighter>) {
    forall f, g :: f in us && g in us && Alive(f) && Moves(g) ==>
      7 * f.speed <= 99998 * g.speed
  }

  /** The same of the data, before anything is set up. */
  ghost predicate NobodyTooSlow(data: InitData) {
    var fs := Everyone(data.campVec);
    forall f, g :: Stands(fs, f) && Stands(fs, g) && Alive(f) && Moves(g) ==>
      7 * f.speed <= 99998 * g.speed
  }

  /** Somebody can act. */
  ghost predicate SomebodyMoves(data: InitData) {
    exists f :: Stands(Everyone(data.campVec), f) && Moves(f)
  }

  lemma EnlistedLike(us: seq<Fighter>, data: InitData)
    requires Enlisted(us, data)
    ensures NobodyTooSlow(data) <==> NoneTooSlow(us)
    ensures SomebodyMoves(data) <==> exists f <- us :: Moves(f)
  {
    hide Stands;
    if SomebodyMoves(data) {
      var f :| Stands(Everyone(data.campVec), f) && Moves(f);
      assert f in us;
    }
  }

  /** In the order of the map. */
  ghost predicate Ascending(us: seq<Fighter>) {
    forall i, j :: 0 <= i < j < |us| ==> us[i].uid < us[j].uid
  }

  ghost predicate Within(us: seq<Fighter>, vs: seq<Fighter>) {
    forall f <- us :: f in vs
  }

  lemma LastIsGreatest(us: seq<Fighter>, f: Fighter)
    requires Ascending(us) && f in us
    ensures f == us[|us| - 1] || f.uid < us[|us| - 1].uid
  {
    var i :| 0 <= i < |us| && us[i] == f;
  }

  lemma WithinFront(us: seq<Fighter>, vs: seq<Fighter>)
    requires us != [] && vs != [] && Ascending(us)
    requires us[|us| - 1] == vs[|vs| - 1] && Within(us, vs)
    ensures Within(us[..|us| - 1], vs[..|vs| - 1])
  {
    var front := us[..|us| - 1];
    forall f <- front ensures f in vs[..|vs| - 1] {
      var i :| 0 <= i < |front| && front[i] == f;
      assert us[i] in us && us[i].uid < us[|us| - 1].uid;
      var j :| 0 <= j < |vs| && vs[j] == f;
      assert vs[..|vs| - 1][j] == f;
    }
  }

  lemma WithinNone(us: seq<Fighter>, vs: seq<Fighter>)
    requires Within(us, vs)
    ensures us != [] ==> vs != []
  {
    if us != [] {
      assert us[0] in us;
    }
  }

  /** There is only one such order of the same units. */
  lemma {:induction false} SameOrder(us: seq<Fighter>, vs: seq<Fighter>)
    requires Ascending(us) && Ascending(vs) && Within(us, vs) && Within(vs, us)
    ensures us == vs
    decreases |us|
  {
    WithinNone(us, vs);
    WithinNone(vs, us);
    if us == [] {
    } else {
      var m, n := |us| - 1, |vs| - 1;
      assert us[m] in us && vs[n] in vs;
      LastIsGreatest(us, vs[n]);
      LastIsGreatest(vs, us[m]);
      WithinFront(us, vs);
      WithinFront(vs, us);
      hide Within;
      SameOrder(us[..m], vs[..n]);
      assert us == us[..m] + [us[m]] && vs == vs[..n] + [vs[n]];
    }
  }

  lemma NoneTooSlowNever(bar: nat, us: seq<Fighter>)
    requires BarFor(bar, us) && NoneTooSlow(us)
    ensures NeverSlow(bar, us)
  {
    var f :| f in us && Moves(f) && BAR_FACTOR * f.speed == bar;
  }

  /** The first run of a fight finds a tick count: the fastest needs seven. */
  lemma FirstRuns(bar: nat, us: seq<Fighter>)
    requires BarFor(bar, us)
    ensures !Stuck(bar, us)
  {
    var f :| f in us && Moves(f) && BAR_FACTOR * f.speed == bar;
    NoTicksExactly(us, bar);
  }

  /** With a bar of seven times the highest speed, that is a battle of no turns,
      within the exact range, and its first run finds a tick count. */
  lemma StartIsBattle(bar: nat, us: seq<Fighter>)
    requires Starts(us) && BarFor(bar, us)
    ensures Battle(bar, us, []) && Exact(bar, us) && !Stuck(bar, us)
  {
    var f :| f in us && Moves(f) && BAR_FACTOR * f.speed == bar;
    FirstRuns(bar, us);
  }

  /** Everyone is of the camp it was listed under, with nothing on its bar. */
  lemma {:induction false} EveryoneIs(camps: seq<CampData>, f: Fighter)
    requires f in Everyone(camps)
    ensures f.bar == f.overflow == 0 && exists c <- camps :: f.camp == c.camp
  {
    var front, last := camps[..|camps| - 1], camps[|camps| - 1];
    assert camps == front + [last];
    if f in Members(last) {
      assert last in camps && f.camp == last.camp;
    } else {
      EveryoneIs(front, f);
    }
  }

  /** The data in scope, put into the map, are units a fight starts with. */
  lemma ScopeStarts(data: InitData, us: seq<Fighter>)
    requires InScope(data) && DistinctFighters(us) && Enlisted(us, data)
    ensures Starts(us)
  {
    forall f <- us
      ensures f.bar == f.overflow == 0
      ensures Alive(f) ==> f.speed <= MAX_SPEED && f.atk <= MAX_ATTACK
    {
      assert Stands(Everyone(data.campVec), f);
      EveryoneIs(data.campVec, f);
    }
  }
}
