/** The nine-grid neighbourhoods of a rectangular grid of sectors: what the
    precomputed lists contain, and that the per-direction lists are exactly the
    sectors entering and leaving view. */
module NineGrid {
  import opened Arithmetic
  import opened Sequences

  const SCREEN := 30

  /** Sectors along one axis: 32-bit ceiling division by the screen size. */
  function SectorCount(length: nat): nat {
    (length + SCREEN - 1) % UINT32 / SCREEN
  }

  /** The sectors cover the axis exactly when the rounding does not wrap, and
      then one sector fewer would not. */
  lemma SectorsCover(length: nat)
    requires length < UINT32
    ensures SectorCount(length) * 30 >= length <==> length <= 0xFFFF_FFFF - 29
    ensures 0 < length <= 0xFFFF_FFFF - 29 ==> (SectorCount(length) - 1) * 30 < length
  {
  }

  datatype Grid = Grid(w: nat, h: nat)

  datatype Cell = Cell(x: int, y: int)

  predicate InMap(g: Grid, c: Cell) {
    0 <= c.x < g.w && 0 <= c.y < g.h
  }

  /** 0 to 7 run once around the centre, 8 is the centre. */
  type Dir = d: nat | d <= 8

  function Off(dir: Dir): Cell {
    match dir
    case 0 => Cell(0, -1)
    case 1 => Cell(1, -1)
    case 2 => Cell(1, 0)
    case 3 => Cell(1, 1)
    case 4 => Cell(0, 1)
    case 5 => Cell(-1, 1)
    case 6 => Cell(-1, 0)
    case 7 => Cell(-1, -1)
    case 8 => Cell(0, 0)
  }

  function Plus(c: Cell, o: Cell): Cell {
    Cell(c.x + o.x, c.y + o.y)
  }

  /** The 32-bit table key of a cell. */
  function Key(g: Grid, c: Cell): nat
    requires InMap(g, c)
  {
    assert c.y * g.w >= 0;
    (c.y * g.w + c.x) % UINT32
  }

  function Entry(g: Grid, c: Cell): seq<nat> {
    if InMap(g, c) then [Key(g, c)] else []
  }

  /** The keys of the neighbours of c in the given directions, in that order. */
  function Collect(g: Grid, c: Cell, dirs: seq<Dir>): seq<nat> {
    if dirs == [] then []
    else Collect(g, c, dirs[..|dirs| - 1]) + Entry(g, Plus(c, Off(dirs[|dirs| - 1])))
  }

  const CENTER: Dir := 8

  const ALL: seq<Dir> := [0, 1, 2, 3, 4, 5, 6, 7, 8]

  function Nine(g: Grid, c: Cell): seq<nat> {
    Collect(g, c, ALL)
  }

  /** The directions (i + dir) % 8 for i from `start` up to but not including `end`. */
  function Turn(dir: nat, start: nat, end: nat): (dirs: seq<Dir>)
    requires start <= end
    ensures |dirs| == end - start
    ensures forall j :: 0 <= j < |dirs| ==> dirs[j] == (start + j + dir) % 8
  {
    seq(end - start, j requires 0 <= j < end - start => (start + j + dir) % 8)
  }

  /** Three directions around a straight one, five around a diagonal one. */
  function Ahead(dir: nat): seq<Dir> {
    if dir % 2 == 1 then Turn(dir, 6, 11) else Turn(dir, 7, 10)
  }

  /** The same around the opposite direction. */
  function Behind(dir: nat): seq<Dir> {
    if dir % 2 == 1 then Turn(dir, 2, 7) else Turn(dir, 3, 6)
  }

  function Direct(g: Grid, c: Cell, dir: nat): seq<nat> {
    Collect(g, c, Ahead(dir))
  }

  function Reverse(g: Grid, c: Cell, dir: nat): seq<nat> {
    Collect(g, c, Behind(dir))
  }

  // ---------- keys ----------

  /** Keys can be told apart on this grid. */
  ghost predicate KeysDistinct(g: Grid) {
    forall a: Cell, b: Cell :: InMap(g, a) && InMap(g, b) && Key(g, a) == Key(g, b) ==> a == b
  }

  lemma MulGap(d: int, w: int)
    requires d >= 1 && w >= 0
    ensures d * w >= w
  {
  }

  lemma IndexBound(g: Grid, c: Cell)
    requires InMap(g, c)
    ensures c.y * g.w + c.x < g.w * g.h
  {
    assert g.h * g.w - c.y * g.w == (g.h - c.y) * g.w;
    MulGap(g.h - c.y, g.w);
  }

  lemma IndexInjective(w: int, a: Cell, b: Cell)
    requires 0 <= a.x < w && 0 <= b.x < w
    requires a.y * w + a.x == b.y * w + b.x
    ensures a == b
  {
    assert (a.y - b.y) * w == a.y * w - b.y * w == b.x - a.x;
    if a.y > b.y {
      MulGap(a.y - b.y, w);
    } else if a.y < b.y {
      assert (b.y - a.y) * w == b.y * w - a.y * w;
      MulGap(b.y - a.y, w);
    }
  }

  lemma KeysApart(g: Grid, a: Cell, b: Cell)
    requires g.w * g.h <= UINT32
    requires InMap(g, a) && InMap(g, b) && Key(g, a) == Key(g, b)
    ensures a == b
  {
    IndexBound(g, a);
    IndexBound(g, b);
    IndexInjective(g.w, a, b);
  }

  /** Wide enough apart for a square and its neighbour: what every grid that the
      construction can be asked for satisfies. */
  predicate Narrow(g: Grid) {
    4 * g.w + 4 < UINT32
  }

  lemma SectorsNarrow(x: nat, y: nat)
    ensures Narrow(Grid(SectorCount(x), SectorCount(y)))
  {
  }

  lemma RowsApart(w: nat, a: int, b: int)
    requires -3 <= a - b <= 3
    ensures -3 * w <= a * w - b * w <= 3 * w
  {
    assert a * w - b * w == (a - b) * w;
    MulMonotone(a - b, -3, w);
    MulMonotone(3, a - b, w);
  }

  lemma SameRemainder(a: int, b: int)
    requires a % UINT32 == b % UINT32 && -UINT32 < a - b < UINT32
    ensures a == b
  {
  }

  /** However large the grid, keys tell nearby cells apart. */
  lemma KeysNear(g: Grid, a: Cell, b: Cell)
    requires Narrow(g) && InMap(g, a) && InMap(g, b) && Key(g, a) == Key(g, b)
    requires -3 <= a.x - b.x <= 3 && -3 <= a.y - b.y <= 3
    ensures a == b
  {
    RowsApart(g.w, a.y, b.y);
    SameRemainder(a.y * g.w + a.x, b.y * g.w + b.x);
    IndexInjective(g.w, a, b);
  }

  lemma WrapCell(g: Grid) returns (b: Cell)
    requires g.w * g.h > UINT32
    ensures InMap(g, b) && b.y * g.w + b.x == UINT32
  {
    b := Cell(UINT32 % g.w, UINT32 / g.w);
    assert b.y * g.w + b.x == UINT32;
    MulMonotone(b.y, g.h, g.w);
  }

  /** The tables can hold every cell exactly when the grid has at most 2^32 of
      them: beyond that the key wraps and two cells share an entry. */
  lemma KeysDistinctExactly(g: Grid)
    ensures KeysDistinct(g) <==> g.w * g.h <= UINT32
  {
    if g.w * g.h <= UINT32 {
      forall a: Cell, b: Cell | InMap(g, a) && InMap(g, b) && Key(g, a) == Key(g, b) ensures a == b {
        KeysApart(g, a, b);
      }
    } else {
      var b := WrapCell(g);
      var a := Cell(0, 0);
      assert InMap(g, a) && Key(g, a) == 0 == Key(g, b);
      assert a != b;
    }
  }

  // ---------- membership ----------

  predicate InSquare(o: Cell) {
    -1 <= o.x <= 1 && -1 <= o.y <= 1
  }

  /** The clipped 3 x 3 square around c: the plain definition of "in view". */
  predicate InView(g: Grid, c: Cell, p: Cell) {
    InMap(g, p) && InSquare(Cell(p.x - c.x, p.y - c.y))
  }

  /** The direction from the centre to an offset of the square. */
  function DirOf(o: Cell): (dir: Dir)
    requires InSquare(o)
    ensures Off(dir) == o
    ensures forall d: Dir :: Off(d) == o ==> d == dir
  {
    if o.x == 0 then (if o.y == -1 then 0 else if o.y == 0 then 8 else 4)
    else if o.x == 1 then (if o.y == -1 then 1 else if o.y == 0 then 2 else 3)
    else (if o.y == -1 then 7 else if o.y == 0 then 6 else 5)
  }

  function Between(c: Cell, p: Cell): Cell {
    Cell(p.x - c.x, p.y - c.y)
  }

  /** The list holds exactly the keys of the cells lying in its directions. */
  lemma {:induction false} CollectHas(g: Grid, c: Cell, dirs: seq<Dir>, k: nat)
    ensures k in Collect(g, c, dirs) <==>
              exists p: Cell :: InView(g, c, p) && DirOf(Between(c, p)) in dirs && k == Key(g, p)
  {
    if dirs == [] {
    } else {
      var front, d := dirs[..|dirs| - 1], dirs[|dirs| - 1];
      CollectHas(g, c, front, k);
      assert dirs == front + [d];
      var last := Plus(c, Off(d));
      assert Between(c, last) == Off(d);
      if InMap(g, last) { assert InView(g, c, last) && DirOf(Between(c, last)) == d; }
      forall p: Cell | InView(g, c, p) && DirOf(Between(c, p)) == d ensures p == last {
        assert Off(d) == Between(c, p);
      }
      assert k in Collect(g, c, dirs) <==> k in Collect(g, c, front) || k in Entry(g, last);
    }
  }

  /** The nine-list of a cell is its clipped square. */
  lemma NineIsSquare(g: Grid, c: Cell, k: nat)
    ensures k in Nine(g, c) <==> exists p: Cell :: InView(g, c, p) && k == Key(g, p)
  {
    CollectHas(g, c, ALL, k);
    forall d: Dir ensures d in ALL { assert ALL[d] == d; }
  }

  lemma {:induction false} CollectNoDup(g: Grid, c: Cell, dirs: seq<Dir>)
    requires Narrow(g) && NoDup(dirs)
    ensures NoDup(Collect(g, c, dirs))
  {
    if dirs == [] {
    } else {
      var front, d := dirs[..|dirs| - 1], dirs[|dirs| - 1];
      CollectNoDup(g, c, front);
      var last := Plus(c, Off(d));
      if InMap(g, last) {
        CollectHas(g, c, front, Key(g, last));
        assert d !in front;
        assert Between(c, last) == Off(d);
        forall p: Cell | InView(g, c, p) && DirOf(Between(c, p)) in front ensures Key(g, p) != Key(g, last) {
          if Key(g, p) == Key(g, last) { KeysNear(g, p, last); }
        }
        assert Key(g, last) !in Collect(g, c, front);
      }
    }
  }

  // ---------- entering and leaving ----------

  /** The directions ahead, written out. */
  function AheadTable(dir: nat): seq<Dir>
    requires dir < 8
  {
    match dir
    case 0 => [7, 0, 1]
    case 1 => [7, 0, 1, 2, 3]
    case 2 => [1, 2, 3]
    case 3 => [1, 2, 3, 4, 5]
    case 4 => [3, 4, 5]
    case 5 => [3, 4, 5, 6, 7]
    case 6 => [5, 6, 7]
    case 7 => [5, 6, 7, 0, 1]
  }

  lemma AheadIsTable(dir: nat)
    requires dir < 8
    ensures Ahead(dir) == AheadTable(dir)
  {
    assert |Ahead(dir)| == |AheadTable(dir)|;
    forall j | 0 <= j < |Ahead(dir)| ensures Ahead(dir)[j] == AheadTable(dir)[j] {
    }
  }

  lemma InThree(d: Dir, a: Dir, b: Dir, c: Dir)
    ensures d in [a, b, c] <==> d == a || d == b || d == c
  {
  }

  lemma InFive(d: Dir, a: Dir, b: Dir, c: Dir, e: Dir, f: Dir)
    ensures d in [a, b, c, e, f] <==> d == a || d == b || d == c || d == e || d == f
  {
  }

  lemma TableIsNew(dir: nat, o: Cell)
    requires dir < 8 && InSquare(o)
    ensures DirOf(o) in AheadTable(dir) <==> !InSquare(Plus(o, Off(dir)))
  {
    var d := DirOf(o);
    match dir
    case 0 => InThree(d, 7, 0, 1);
    case 1 => InFive(d, 7, 0, 1, 2, 3);
    case 2 => InThree(d, 1, 2, 3);
    case 3 => InFive(d, 1, 2, 3, 4, 5);
    case 4 => InThree(d, 3, 4, 5);
    case 5 => InFive(d, 3, 4, 5, 6, 7);
    case 6 => InThree(d, 5, 6, 7);
    case 7 => InFive(d, 5, 6, 7, 0, 1);
  }

  /** Seen from the new centre, the directions ahead are those whose offset,
      taken one step further, leaves the square: what the old centre did not see. */
  lemma AheadIsNew(dir: nat, o: Cell)
    requires dir < 8 && InSquare(o)
    ensures DirOf(o) in Ahead(dir) <==> !InSquare(Plus(o, Off(dir)))
  {
    AheadIsTable(dir);
    TableIsNew(dir, o);
  }

  lemma ModInside(a: nat, b: nat)
    ensures (a + b % 8) % 8 == (a + b) % 8
  {
  }

  lemma EightMore(n: nat)
    ensures (n + 8) % 8 == n % 8
  {
  }

  /** Turning by half a circle. */
  lemma TurnOpposite(dir: nat, start: nat, end: nat)
    requires start <= end
    ensures Turn((dir + 4) % 8, start + 4, end + 4) == Turn(dir, start, end)
  {
    var a, b := Turn((dir + 4) % 8, start + 4, end + 4), Turn(dir, start, end);
    forall j | 0 <= j < end - start ensures a[j] == b[j] {
      ModInside(start + 4 + j, dir + 4);
      EightMore(start + j + dir);
    }
  }

  lemma BehindIsAhead(dir: nat)
    requires dir < 8
    ensures Behind(dir) == Ahead((dir + 4) % 8)
  {
    assert (dir + 4) % 8 % 2 == dir % 2;
    if dir % 2 == 1 { TurnOpposite(dir, 2, 7); } else { TurnOpposite(dir, 3, 6); }
  }

  lemma TableNoDup(dir: nat)
    requires dir < 8
    ensures NoDup(AheadTable(dir))
  {
    var t := AheadTable(dir);
    match dir
    case 0 => assert t == [7, 0, 1];
    case 1 => assert t == [7, 0, 1, 2, 3];
    case 2 => assert t == [1, 2, 3];
    case 3 => assert t == [1, 2, 3, 4, 5];
    case 4 => assert t == [3, 4, 5];
    case 5 => assert t == [3, 4, 5, 6, 7];
    case 6 => assert t == [5, 6, 7];
    case 7 => assert t == [5, 6, 7, 0, 1];
  }

  lemma AheadNoDup(dir: nat)
    requires dir < 8
    ensures NoDup(Ahead(dir)) && NoDup(Behind(dir))
  {
    AheadIsTable(dir);
    TableNoDup(dir);
    AheadIsTable((dir + 4) % 8);
    TableNoDup((dir + 4) % 8);
    BehindIsAhead(dir);
  }

  /** The direct list of a direction is, as a list, the reverse list of the
      opposite direction. */
  lemma DirectIsOppositeReverse(g: Grid, c: Cell, dir: nat)
    requires dir < 8
    ensures Direct(g, c, dir) == Reverse(g, c, (dir + 4) % 8)
  {
    BehindIsAhead((dir + 4) % 8);
    assert ((dir + 4) % 8 + 4) % 8 == dir;
  }

  lemma DirectHas(g: Grid, n: Cell, dir: nat, c: Cell, k: nat)
    requires dir < 8 && n == Plus(c, Off(dir))
    ensures k in Direct(g, n, dir) <==>
              exists p: Cell :: InView(g, n, p) && !InView(g, c, p) && k == Key(g, p)
  {
    CollectHas(g, n, Ahead(dir), k);
    forall p: Cell | InView(g, n, p)
      ensures DirOf(Between(n, p)) in Ahead(dir) <==> !InView(g, c, p)
    {
      AheadIsNew(dir, Between(n, p));
      assert Plus(Between(n, p), Off(dir)) == Between(c, p);
    }
  }

  lemma OffOpposite(dir: nat)
    requires dir < 8
    ensures Off((dir + 4) % 8) == Cell(-Off(dir).x, -Off(dir).y)
  {
  }

  lemma DirectSplits(g: Grid, n: Cell, dir: nat, c: Cell)
    requires dir < 8 && Narrow(g)
    requires n == Plus(c, Off(dir))
    ensures forall k :: k in Direct(g, n, dir) <==> k in Nine(g, n) && k !in Nine(g, c)
  {
    forall k ensures k in Direct(g, n, dir) <==> k in Nine(g, n) && k !in Nine(g, c) {
      if k >= 0 {
        DirectHas(g, n, dir, c, k);
        NineIsSquare(g, n, k);
        NineIsSquare(g, c, k);
        forall p: Cell, q: Cell | InView(g, n, p) && InView(g, c, q) && Key(g, p) == Key(g, q) ensures p == q {
          KeysNear(g, p, q);
        }
      }
    }
  }

  /** Moving from c one step in direction dir to n: the direct list of n is what
      enters view and the reverse list of c is what leaves it. */
  lemma MoveDeltas(g: Grid, c: Cell, dir: nat)
    requires dir < 8 && Narrow(g)
    ensures var n := Plus(c, Off(dir));
            && (forall k :: k in Direct(g, n, dir) <==> k in Nine(g, n) && k !in Nine(g, c))
            && (forall k :: k in Reverse(g, c, dir) <==> k in Nine(g, c) && k !in Nine(g, n))
  {
    var n := Plus(c, Off(dir));
    var back := (dir + 4) % 8;
    assert (back + 4) % 8 == dir;
    OffOpposite(dir);
    assert c == Plus(n, Off(back));
    DirectIsOppositeReverse(g, c, back);
    DirectSplits(g, n, dir, c);
    DirectSplits(g, c, back, n);
  }

  /** The cell lies on the side of c that a direction faces: 0 is up, where y is
      smaller, 2 is to the right, where x is greater; odd directions face two sides. */
  predicate OnSide(c: Cell, p: Cell, dir: nat) {
    match dir
    case 0 => p.y == c.y - 1
    case 1 => p.y == c.y - 1 || p.x == c.x + 1
    case 2 => p.x == c.x + 1
    case 3 => p.x == c.x + 1 || p.y == c.y + 1
    case 4 => p.y == c.y + 1
    case 5 => p.y == c.y + 1 || p.x == c.x - 1
    case 6 => p.x == c.x - 1
    case _ => p.x == c.x - 1 || p.y == c.y - 1
  }

  /** A cell of the square around c, on the map, with this 32-bit row-major number. */
  predicate Seen(g: Grid, c: Cell, p: Cell, k: nat) {
    && 0 <= p.x < g.w && 0 <= p.y < g.h && -1 <= p.x - c.x <= 1 && -1 <= p.y - c.y <= 1
    && k == (p.y * g.w + p.x) % 0x1_0000_0000
  }

  lemma AheadIsSide(c: Cell, p: Cell, dir: nat)
    requires dir < 8 && InSquare(Between(c, p))
    ensures DirOf(Between(c, p)) in Ahead(dir) <==> OnSide(c, p, dir)
  {
    AheadIsNew(dir, Between(c, p));
  }

  lemma SeenIsView(g: Grid, c: Cell, p: Cell, k: nat)
    ensures Seen(g, c, p, k) <==> InView(g, c, p) && k == Key(g, p)
  {
  }

  lemma SideHas(g: Grid, c: Cell, dir: nat, k: nat)
    requires dir < 8
    ensures k in Direct(g, c, dir) <==> exists p: Cell :: Seen(g, c, p, k) && OnSide(c, p, dir)
  {
    CollectHas(g, c, Ahead(dir), k);
    forall p: Cell
      ensures Seen(g, c, p, k) <==> InView(g, c, p) && k == Key(g, p)
      ensures InView(g, c, p) ==> (DirOf(Between(c, p)) in Ahead(dir) <==> OnSide(c, p, dir))
    {
      SeenIsView(g, c, p, k);
      if InView(g, c, p) { AheadIsSide(c, p, dir); }
    }
    hide Seen;
    hide InView;
    hide OnSide;
    hide Ahead;
    hide DirOf;
    hide Collect;
    hide Key;
  }

  lemma SquareHas(g: Grid, c: Cell, k: nat)
    ensures k in Nine(g, c) <==> exists p: Cell :: Seen(g, c, p, k)
  {
    NineIsSquare(g, c, k);
    forall p: Cell ensures Seen(g, c, p, k) <==> InView(g, c, p) && k == Key(g, p) {
      SeenIsView(g, c, p, k);
    }
    hide Seen;
    hide InView;
    hide Key;
    hide Nine;
  }

  /** The lists in coordinates: the nine-list is the square, the direct list of a
      direction is the side of it that the direction faces, and the reverse list the
      side behind. */
  lemma InCoordinates(g: Grid, c: Cell, dir: nat, k: nat)
    requires dir < 8
    ensures k in Nine(g, c) <==> exists p: Cell :: Seen(g, c, p, k)
    ensures k in Direct(g, c, dir) <==> exists p: Cell :: Seen(g, c, p, k) && OnSide(c, p, dir)
    ensures k in Reverse(g, c, dir) <==> exists p: Cell :: Seen(g, c, p, k) && OnSide(c, p, (dir + 4) % 8)
  {
    SquareHas(g, c, k);
    SideHas(g, c, dir, k);
    SideHas(g, c, (dir + 4) % 8, k);
    BehindIsAhead(dir);
    hide OnSide;
    hide Seen;
    hide Nine;
    hide Collect;
  }

  /** The 32-bit row-major number of the cell so far from c, if it is on the map. */
  function Number(g: Grid, c: Cell, dx: int, dy: int): (r: seq<int>) {
    if 0 <= c.x + dx < g.w && 0 <= c.y + dy < g.h then [((c.y + dy) * g.w + c.x + dx) % 0x1_0000_0000] else []
  }

  lemma EntryIs(g: Grid, c: Cell, d: Dir, dx: int, dy: int)
    requires Off(d) == Cell(dx, dy)
    ensures Entry(g, Plus(c, Off(d))) == Number(g, c, dx, dy)
  {
  }

  lemma Entries(g: Grid, c: Cell)
    ensures Entry(g, Plus(c, Off(0))) == Number(g, c, 0, -1) && Entry(g, Plus(c, Off(1))) == Number(g, c, 1, -1)
    ensures Entry(g, Plus(c, Off(2))) == Number(g, c, 1, 0) && Entry(g, Plus(c, Off(3))) == Number(g, c, 1, 1)
    ensures Entry(g, Plus(c, Off(4))) == Number(g, c, 0, 1) && Entry(g, Plus(c, Off(5))) == Number(g, c, -1, 1)
    ensures Entry(g, Plus(c, Off(6))) == Number(g, c, -1, 0) && Entry(g, Plus(c, Off(7))) == Number(g, c, -1, -1)
    ensures Entry(g, Plus(c, Off(8))) == Number(g, c, 0, 0)
  {
    EntryIs(g, c, 0, 0, -1);
    EntryIs(g, c, 1, 1, -1);
    EntryIs(g, c, 2, 1, 0);
    EntryIs(g, c, 3, 1, 1);
    EntryIs(g, c, 4, 0, 1);
    EntryIs(g, c, 5, -1, 1);
    EntryIs(g, c, 6, -1, 0);
    EntryIs(g, c, 7, -1, -1);
    EntryIs(g, c, 8, 0, 0);
  }

  lemma CollectSnoc(g: Grid, c: Cell, dirs: seq<Dir>, d: Dir)
    ensures Collect(g, c, dirs + [d]) == Collect(g, c, dirs) + Entry(g, Plus(c, Off(d)))
  {
    assert (dirs + [d])[..|dirs|] == dirs;
  }

  lemma CollectTwo(g: Grid, c: Cell, dirs: seq<Dir>, d: Dir, e: Dir)
    ensures Collect(g, c, dirs + [d, e])
         == Collect(g, c, dirs) + Entry(g, Plus(c, Off(d))) + Entry(g, Plus(c, Off(e)))
  {
    assert dirs + [d, e] == (dirs + [d]) + [e];
    CollectSnoc(g, c, dirs + [d], e);
    CollectSnoc(g, c, dirs, d);
  }

  lemma CollectThree(g: Grid, c: Cell, d: Dir, e: Dir, f: Dir)
    ensures Collect(g, c, [d, e, f])
         == Entry(g, Plus(c, Off(d))) + Entry(g, Plus(c, Off(e))) + Entry(g, Plus(c, Off(f)))
  {
    assert [d, e, f] == [d] + [e, f] && [d] == [] + [d];
    CollectTwo(g, c, [d], e, f);
    CollectSnoc(g, c, [], d);
    hide Entry;
    assert [] + Entry(g, Plus(c, Off(d))) == Entry(g, Plus(c, Off(d)));
  }

  lemma NineSpelled(g: Grid, c: Cell)
    ensures Nine(g, c) == Entry(g, Plus(c, Off(0))) + Entry(g, Plus(c, Off(1))) + Entry(g, Plus(c, Off(2)))
                          + Entry(g, Plus(c, Off(3))) + Entry(g, Plus(c, Off(4))) + Entry(g, Plus(c, Off(5)))
                          + Entry(g, Plus(c, Off(6))) + Entry(g, Plus(c, Off(7))) + Entry(g, Plus(c, Off(8)))
  {
    assert [0, 1, 2] + [3, 4] == [0, 1, 2, 3, 4] && [0, 1, 2, 3, 4] + [5, 6] == [0, 1, 2, 3, 4, 5, 6];
    assert ALL == [0, 1, 2, 3, 4, 5, 6] + [7, 8];
    CollectTwo(g, c, [0, 1, 2, 3, 4, 5, 6], 7, 8);
    CollectTwo(g, c, [0, 1, 2, 3, 4], 5, 6);
    CollectTwo(g, c, [0, 1, 2], 3, 4);
    CollectThree(g, c, 0, 1, 2);
    hide Entry;
    hide Collect;
    hide Off;
  }

  lemma SideSpelled(g: Grid, c: Cell, dir: nat, a: Dir, b: Dir, d: Dir, e: Dir, f: Dir)
    requires dir < 7 && dir % 2 == 0 && AheadTable(dir) == [a, b, d] && AheadTable(dir + 1) == [a, b, d, e, f]
    ensures Direct(g, c, dir) == Entry(g, Plus(c, Off(a))) + Entry(g, Plus(c, Off(b))) + Entry(g, Plus(c, Off(d)))
    ensures Direct(g, c, dir + 1) == Direct(g, c, dir) + Entry(g, Plus(c, Off(e))) + Entry(g, Plus(c, Off(f)))
  {
    AheadIsTable(dir);
    AheadIsTable(dir + 1);
    assert [a, b, d] + [e, f] == [a, b, d, e, f];
    CollectThree(g, c, a, b, d);
    CollectTwo(g, c, [a, b, d], e, f);
  }

  lemma SidesSpelled(g: Grid, c: Cell)
    ensures Direct(g, c, 0) == Entry(g, Plus(c, Off(7))) + Entry(g, Plus(c, Off(0))) + Entry(g, Plus(c, Off(1)))
    ensures Direct(g, c, 2) == Entry(g, Plus(c, Off(1))) + Entry(g, Plus(c, Off(2))) + Entry(g, Plus(c, Off(3)))
    ensures Direct(g, c, 4) == Entry(g, Plus(c, Off(3))) + Entry(g, Plus(c, Off(4))) + Entry(g, Plus(c, Off(5)))
    ensures Direct(g, c, 6) == Entry(g, Plus(c, Off(5))) + Entry(g, Plus(c, Off(6))) + Entry(g, Plus(c, Off(7)))
    ensures Direct(g, c, 1) == Direct(g, c, 0) + Entry(g, Plus(c, Off(2))) + Entry(g, Plus(c, Off(3)))
    ensures Direct(g, c, 3) == Direct(g, c, 2) + Entry(g, Plus(c, Off(4))) + Entry(g, Plus(c, Off(5)))
    ensures Direct(g, c, 5) == Direct(g, c, 4) + Entry(g, Plus(c, Off(6))) + Entry(g, Plus(c, Off(7)))
    ensures Direct(g, c, 7) == Direct(g, c, 6) + Entry(g, Plus(c, Off(0))) + Entry(g, Plus(c, Off(1)))
  {
    SideSpelled(g, c, 0, 7, 0, 1, 2, 3);
    SideSpelled(g, c, 2, 1, 2, 3, 4, 5);
    SideSpelled(g, c, 4, 3, 4, 5, 6, 7);
    SideSpelled(g, c, 6, 5, 6, 7, 0, 1);
    hide Direct;
    hide Entry;
    hide Off;
  }

  /** The lists themselves, entry by entry: the nine-list starts above the cell and runs
      around it, the centre last; the direct lists run the same way along their side. */
  lemma InOrder(g: Grid, c: Cell)
    ensures Nine(g, c) == Number(g, c, 0, -1) + Number(g, c, 1, -1) + Number(g, c, 1, 0) + Number(g, c, 1, 1)
                          + Number(g, c, 0, 1) + Number(g, c, -1, 1) + Number(g, c, -1, 0) + Number(g, c, -1, -1)
                          + Number(g, c, 0, 0)
    ensures Direct(g, c, 0) == Number(g, c, -1, -1) + Number(g, c, 0, -1) + Number(g, c, 1, -1)
    ensures Direct(g, c, 2) == Number(g, c, 1, -1) + Number(g, c, 1, 0) + Number(g, c, 1, 1)
    ensures Direct(g, c, 4) == Number(g, c, 1, 1) + Number(g, c, 0, 1) + Number(g, c, -1, 1)
    ensures Direct(g, c, 6) == Number(g, c, -1, 1) + Number(g, c, -1, 0) + Number(g, c, -1, -1)
    ensures Direct(g, c, 1) == Direct(g, c, 0) + Number(g, c, 1, 0) + Number(g, c, 1, 1)
    ensures Direct(g, c, 3) == Direct(g, c, 2) + Number(g, c, 0, 1) + Number(g, c, -1, 1)
    ensures Direct(g, c, 5) == Direct(g, c, 4) + Number(g, c, -1, 0) + Number(g, c, -1, -1)
    ensures Direct(g, c, 7) == Direct(g, c, 6) + Number(g, c, 0, -1) + Number(g, c, 1, -1)
  {
    Entries(g, c);
    NineSpelled(g, c);
    SidesSpelled(g, c);
    hide *;
  }

  /** No list of the tables repeats a sector. */
  lemma NoRepeats(g: Grid, c: Cell, dir: nat)
    requires dir < 8 && Narrow(g)
    ensures NoDup(Nine(g, c)) && NoDup(Direct(g, c, dir)) && NoDup(Reverse(g, c, dir))
  {
    AheadNoDup(dir);
    CollectNoDup(g, c, Ahead(dir));
    CollectNoDup(g, c, Behind(dir));
    CollectNoDup(g, c, ALL);
  }

  // ---------- walks ----------

  function Keys(s: seq<nat>): set<nat> {
    set k | k in s
  }

  /** Where a walk ends. */
  function Walk(c: Cell, dirs: seq<Dir>): Cell
    decreases |dirs|
  {
    if dirs == [] then c else Walk(Plus(c, Off(dirs[0])), dirs[1..])
  }

  /** Where one step leads. */
  lemma StepTo(c: Cell, dir: Dir)
    ensures var n := Walk(c, [dir]);
            && n.x == c.x + (if 1 <= dir <= 3 then 1 else if 5 <= dir <= 7 then -1 else 0)
            && n.y == c.y + (if dir <= 1 || dir == 7 then -1 else if 3 <= dir <= 5 then 1 else 0)
  {
    assert [dir][1..] == [];
  }

  /** A view kept up to date by the precomputed deltas only. */
  function Track(g: Grid, c: Cell, view: set<nat>, dirs: seq<Dir>): set<nat>
    decreases |dirs|
  {
    if dirs == [] then view
    else
      var n := Plus(c, Off(dirs[0]));
      Track(g, n, view - Keys(Reverse(g, c, dirs[0])) + Keys(Direct(g, n, dirs[0])), dirs[1..])
  }

  /** Incremental equals recomputed: along any walk, folding the deltas into the
      starting view gives the nine-list of the end. */
  lemma {:induction false} TrackIsNine(g: Grid, c: Cell, dirs: seq<Dir>)
    requires Narrow(g)
    requires CENTER !in dirs
    ensures Track(g, c, Keys(Nine(g, c)), dirs) == Keys(Nine(g, Walk(c, dirs)))
    decreases |dirs|
  {
    if dirs == [] {
    } else {
      var n := Plus(c, Off(dirs[0]));
      MoveDeltas(g, c, dirs[0]);
      var view := Keys(Nine(g, c)) - Keys(Reverse(g, c, dirs[0])) + Keys(Direct(g, n, dirs[0]));
      assert view == Keys(Nine(g, n));
      TrackIsNine(g, n, dirs[1..]);
    }
  }
}
