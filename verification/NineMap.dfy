/** The object that builds the neighbourhood tables of a map. */
module NineMaps {
  import opened Arithmetic
  import opened NineGrid

  type Table = map<nat, seq<nat>>

  /** std::map::insert: an existing entry wins. */
  function Insert(m: Table, k: nat, list: seq<nat>): Table {
    if k in m then m else m[k := list]
  }

  datatype Kind = Whole | Entering(dir: nat) | Leaving(dir: nat)

  function ListOf(g: Grid, c: Cell, kind: Kind): seq<nat> {
    match kind
    case Whole => Nine(g, c)
    case Entering(dir) => Direct(g, c, dir)
    case Leaving(dir) => Reverse(g, c, dir)
  }

  predicate Before(c: Cell, y: int, x: int) {
    c.y < y || (c.y == y && c.x < x)
  }

  predicate New(m0: Table, m: Table, k: nat) {
    k in m && k !in m0
  }

  /** The table after the cells before (x, y), row by row, have been inserted:
      old entries stand, every such cell has its list, and nothing else was added. */
  ghost predicate Filled(m0: Table, m: Table, g: Grid, kind: Kind, y: int, x: int) {
    && (forall k :: k in m0 ==> k in m && m[k] == m0[k])
    && (forall c: Cell :: InMap(g, c) && Before(c, y, x) ==>
          Key(g, c) in m && (Key(g, c) !in m0 ==> m[Key(g, c)] == ListOf(g, c, kind)))
    && (forall k: nat :: New(m0, m, k) ==> exists c: Cell :: InMap(g, c) && Before(c, y, x) && k == Key(g, c))
  }

  lemma NotYet(m0: Table, m: Table, g: Grid, kind: Kind, c: Cell)
    requires KeysDistinct(g) && InMap(g, c)
    requires Filled(m0, m, g, kind, c.y, c.x)
    ensures !New(m0, m, Key(g, c))
  {
  }

  lemma FilledInsert(m0: Table, m: Table, g: Grid, kind: Kind, c: Cell)
    requires KeysDistinct(g) && InMap(g, c)
    requires Filled(m0, m, g, kind, c.y, c.x)
    ensures Filled(m0, Insert(m, Key(g, c), ListOf(g, c, kind)), g, kind, c.y, c.x + 1)
  {
    var m' := Insert(m, Key(g, c), ListOf(g, c, kind));
    NotYet(m0, m, g, kind, c);
    forall b: Cell | InMap(g, b) && Before(b, c.y, c.x + 1)
      ensures Key(g, b) in m' && (Key(g, b) !in m0 ==> m'[Key(g, b)] == ListOf(g, b, kind))
    {
      if !Before(b, c.y, c.x) {
        assert b == c;
      }
    }
    forall k: nat | New(m0, m', k)
      ensures exists b: Cell :: InMap(g, b) && Before(b, c.y, c.x + 1) && k == Key(g, b)
    {
      if k == Key(g, c) {
        assert Before(c, c.y, c.x + 1);
      } else {
        assert New(m0, m, k);
        var b: Cell :| InMap(g, b) && Before(b, c.y, c.x) && k == Key(g, b);
        assert Before(b, c.y, c.x + 1);
      }
    }
  }

  lemma FilledRow(m0: Table, m: Table, g: Grid, kind: Kind, y: int)
    requires Filled(m0, m, g, kind, y, g.w)
    ensures Filled(m0, m, g, kind, y + 1, 0)
  {
    forall c: Cell | InMap(g, c) ensures Before(c, y + 1, 0) <==> Before(c, y, g.w) {
    }
  }

  /** What the three table families hold once every cell has been inserted. */
  ghost predicate Complete(m0: Table, m: Table, g: Grid, kind: Kind) {
    && (forall k :: k in m0 ==> k in m && m[k] == m0[k])
    && (forall c: Cell :: InMap(g, c) ==> Key(g, c) in m && (Key(g, c) !in m0 ==> m[Key(g, c)] == ListOf(g, c, kind)))
    && (forall k: nat :: New(m0, m, k) ==> exists c: Cell :: InMap(g, c) && k == Key(g, c))
  }

  lemma FilledComplete(m0: Table, m: Table, g: Grid, kind: Kind)
    requires Filled(m0, m, g, kind, g.h, 0)
    ensures Complete(m0, m, g, kind)
  {
    forall c: Cell | InMap(g, c) ensures Before(c, g.h, 0) {
    }
  }

  lemma TurnSnoc(dir: nat, start: nat, i: nat)
    requires start <= i
    ensures Turn(dir, start, i + 1) == Turn(dir, start, i) + [(i + dir) % 8]
  {
  }

  // ---------- all seventeen tables ----------

  datatype Tables = Tables(nine: Table, direct: seq<Table>, reverse: seq<Table>)

  predicate Shaped(t: Tables) {
    |t.direct| == |t.reverse| == 8
  }

  predicate IsKind(kind: Kind) {
    match kind
    case Whole => true
    case Entering(dir) => dir < 8
    case Leaving(dir) => dir < 8
  }

  function TableOf(t: Tables, kind: Kind): Table
    requires Shaped(t) && IsKind(kind)
  {
    match kind
    case Whole => t.nine
    case Entering(dir) => t.direct[dir]
    case Leaving(dir) => t.reverse[dir]
  }

  /** The tables with the lists of one cell inserted. */
  function Add(t: Tables, g: Grid, c: Cell): (u: Tables)
    ensures Shaped(t) ==> Shaped(u)
  {
    if !InMap(g, c) then t
    else
      Tables(
        Insert(t.nine, Key(g, c), Nine(g, c)),
        seq(|t.direct|, d requires 0 <= d < |t.direct| => Insert(t.direct[d], Key(g, c), Direct(g, c, d))),
        seq(|t.reverse|, d requires 0 <= d < |t.reverse| => Insert(t.reverse[d], Key(g, c), Reverse(g, c, d))))
  }

  /** The first n cells of a row inserted, and the first n rows. */
  function AddCells(t: Tables, g: Grid, row: nat, n: nat): (u: Tables)
    ensures Shaped(t) ==> Shaped(u)
  {
    if n == 0 then t else Add(AddCells(t, g, row, n - 1), g, Cell(n - 1, row))
  }

  function AddRows(t: Tables, g: Grid, n: nat): (u: Tables)
    ensures Shaped(t) ==> Shaped(u)
  {
    if n == 0 then t else AddCells(AddRows(t, g, n - 1), g, n - 1, g.w)
  }

  ghost predicate CompleteAll(t0: Tables, t: Tables, g: Grid) {
    && Shaped(t0) && Shaped(t)
    && forall kind: Kind :: IsKind(kind) ==> Complete(TableOf(t0, kind), TableOf(t, kind), g, kind)
  }

  lemma CellFills(t0: Tables, t: Tables, g: Grid, c: Cell, kind: Kind)
    requires KeysDistinct(g) && InMap(g, c) && IsKind(kind) && Shaped(t0) && Shaped(t)
    requires Filled(TableOf(t0, kind), TableOf(t, kind), g, kind, c.y, c.x)
    ensures Filled(TableOf(t0, kind), TableOf(Add(t, g, c), kind), g, kind, c.y, c.x + 1)
  {
    FilledInsert(TableOf(t0, kind), TableOf(t, kind), g, kind, c);
  }

  lemma {:induction false} RowFills(t0: Tables, t: Tables, g: Grid, row: nat, n: nat, kind: Kind)
    requires KeysDistinct(g) && row < g.h && n <= g.w && IsKind(kind) && Shaped(t0) && Shaped(t)
    requires Filled(TableOf(t0, kind), TableOf(t, kind), g, kind, row, 0)
    ensures Filled(TableOf(t0, kind), TableOf(AddCells(t, g, row, n), kind), g, kind, row, n)
  {
    hide Filled;
    hide KeysDistinct;
    if n == 0 {
    } else {
      RowFills(t0, t, g, row, n - 1, kind);
      CellFills(t0, AddCells(t, g, row, n - 1), g, Cell(n - 1, row), kind);
    }
  }

  lemma RowEnds(t0: Tables, t: Tables, g: Grid, row: nat, kind: Kind)
    requires KeysDistinct(g) && row < g.h && IsKind(kind) && Shaped(t0) && Shaped(t)
    requires Filled(TableOf(t0, kind), TableOf(t, kind), g, kind, row, 0)
    ensures Filled(TableOf(t0, kind), TableOf(AddCells(t, g, row, g.w), kind), g, kind, row + 1, 0)
  {
    RowFills(t0, t, g, row, g.w, kind);
    FilledRow(TableOf(t0, kind), TableOf(AddCells(t, g, row, g.w), kind), g, kind, row);
  }

  lemma NoneFilled(m: Table, g: Grid, kind: Kind)
    ensures Filled(m, m, g, kind, 0, 0)
  {
  }

  lemma {:induction false} RowsFill(t: Tables, g: Grid, n: nat, kind: Kind)
    requires KeysDistinct(g) && n <= g.h && IsKind(kind) && Shaped(t)
    ensures Filled(TableOf(t, kind), TableOf(AddRows(t, g, n), kind), g, kind, n, 0)
  {
    hide Filled;
    hide KeysDistinct;
    if n == 0 {
      NoneFilled(TableOf(t, kind), g, kind);
    } else {
      RowsFill(t, g, n - 1, kind);
      RowEnds(t, AddRows(t, g, n - 1), g, n - 1, kind);
    }
  }

  /** Inserting row by row completes all seventeen tables, on every map whose
      cells have distinct keys. */
  lemma RowsComplete(t: Tables, g: Grid)
    requires KeysDistinct(g) && Shaped(t)
    ensures CompleteAll(t, AddRows(t, g, g.h), g)
  {
    forall kind: Kind | IsKind(kind)
      ensures Complete(TableOf(t, kind), TableOf(AddRows(t, g, g.h), kind), g, kind)
    {
      RowsFill(t, g, g.h, kind);
      FilledComplete(TableOf(t, kind), TableOf(AddRows(t, g, g.h), kind), g, kind);
    }
  }

  // ---------- using the tables ----------

  /** operator[] of the table: no list for a key that is not there. */
  function Look(m: Table, k: nat): seq<nat> {
    if k in m then m[k] else []
  }

  /** A walk that stays on the map. */
  predicate OnMap(g: Grid, c: Cell, dirs: seq<Dir>)
    decreases |dirs|
  {
    InMap(g, c) && (dirs == [] || (dirs[0] != CENTER && OnMap(g, Plus(c, Off(dirs[0])), dirs[1..])))
  }

  /** A view kept up to date along a walk with what the tables hold. */
  function TableTrack(t: Tables, g: Grid, c: Cell, view: set<nat>, dirs: seq<Dir>): set<nat>
    requires Shaped(t) && OnMap(g, c, dirs)
    decreases |dirs|
  {
    if dirs == [] then view
    else
      var d, n := dirs[0], Plus(c, Off(dirs[0]));
      assert OnMap(g, n, dirs[1..]);
      var left, entered := Look(t.reverse[d], Key(g, c)), Look(t.direct[d], Key(g, n));
      TableTrack(t, g, n, view - Keys(left) + Keys(entered), dirs[1..])
  }

  function Blank(): Tables {
    Tables(map[], seq(8, _ => map[]), seq(8, _ => map[]))
  }

  lemma LookIs(t: Tables, g: Grid, c: Cell, kind: Kind)
    requires CompleteAll(Blank(), t, g) && InMap(g, c) && IsKind(kind)
    ensures Look(TableOf(t, kind), Key(g, c)) == ListOf(g, c, kind)
  {
    assert Complete(TableOf(Blank(), kind), TableOf(t, kind), g, kind);
    assert TableOf(Blank(), kind) == map[];
  }

  lemma {:induction false} TableTrackIs(t: Tables, g: Grid, c: Cell, view: set<nat>, dirs: seq<Dir>)
    requires CompleteAll(Blank(), t, g) && OnMap(g, c, dirs)
    ensures TableTrack(t, g, c, view, dirs) == Track(g, c, view, dirs)
    decreases |dirs|
  {
    assert Shaped(t);
    hide CompleteAll;
    if dirs == [] {
    } else {
      var d, n := dirs[0], Plus(c, Off(dirs[0]));
      assert OnMap(g, n, dirs[1..]) && InMap(g, n);
      LookIs(t, g, c, Leaving(d));
      LookIs(t, g, n, Entering(d));
      TableTrackIs(t, g, n, view - Keys(Reverse(g, c, d)) + Keys(Direct(g, n, d)), dirs[1..]);
    }
  }

  lemma {:induction false} WalkOnMap(g: Grid, c: Cell, dirs: seq<Dir>)
    requires OnMap(g, c, dirs)
    ensures CENTER !in dirs && InMap(g, Walk(c, dirs))
    decreases |dirs|
  {
    if dirs == [] {
    } else {
      WalkOnMap(g, Plus(c, Off(dirs[0])), dirs[1..]);
      assert dirs == [dirs[0]] + dirs[1..];
    }
  }

  /** The tables serve their purpose: starting from the nine-list of a cell and
      following any walk on the map with the lists looked up in the tables ends at
      the nine-list looked up for the last cell. */
  lemma TablesServe(t: Tables, g: Grid, c: Cell, dirs: seq<Dir>)
    requires Narrow(g) && CompleteAll(Blank(), t, g) && OnMap(g, c, dirs)
    ensures InMap(g, Walk(c, dirs))
    ensures TableTrack(t, g, c, Keys(Look(t.nine, Key(g, c))), dirs) == Keys(Look(t.nine, Key(g, Walk(c, dirs))))
  {
    assert TableOf(t, Whole) == t.nine;
    hide CompleteAll;
    WalkOnMap(g, c, dirs);
    LookIs(t, g, c, Whole);
    LookIs(t, g, Walk(c, dirs), Whole);
    TableTrackIs(t, g, c, Keys(Nine(g, c)), dirs);
    TrackIsNine(g, c, dirs);
  }

  lemma TablesHold(t: Tables, g: Grid, c: Cell, dir: nat)
    requires CompleteAll(Blank(), t, g) && InMap(g, c) && dir < 8
    ensures Shaped(t) && Look(t.nine, Key(g, c)) == Nine(g, c)
    ensures Look(t.direct[dir], Key(g, c)) == Direct(g, c, dir) && Look(t.reverse[dir], Key(g, c)) == Reverse(g, c, dir)
  {
    LookIs(t, g, c, Whole);
    LookIs(t, g, c, Entering(dir));
    LookIs(t, g, c, Leaving(dir));
  }

  /** What the tables hold, in coordinates: under the row-major number of a cell the
      numbers of its square, and for each direction those of the side it faces and of the
      side behind. */
  lemma TablesInCoordinates(t: Tables, g: Grid, c: Cell, dir: nat, n: nat, k: nat)
    requires CompleteAll(Blank(), t, g) && InMap(g, c) && dir < 8
    requires n == (c.y * g.w + c.x) % 0x1_0000_0000
    ensures Shaped(t)
    ensures k in Look(t.nine, n) <==> exists p: Cell :: Seen(g, c, p, k)
    ensures k in Look(t.direct[dir], n) <==> exists p: Cell :: Seen(g, c, p, k) && OnSide(c, p, dir)
    ensures k in Look(t.reverse[dir], n) <==> exists p: Cell :: Seen(g, c, p, k) && OnSide(c, p, (dir + 4) % 8)
  {
    TablesHold(t, g, c, dir);
    InCoordinates(g, c, dir, k);
    assert n == Key(g, c);
    hide *;
  }

  class NineMap {
    var maxX: nat
    var maxY: nat
    var sectorX: nat
    var sectorY: nat
    var nineMap: Table
    var directMap: seq<Table>
    var reverseMap: seq<Table>

    ghost function View(): Tables
      reads this
    {
      Tables(nineMap, directMap, reverseMap)
    }

    constructor ()
      ensures View() == Blank()
    {
      maxX, maxY, sectorX, sectorY := 0, 0, 0, 0;
      nineMap := map[];
      directMap, reverseMap := seq(8, _ => map[]), seq(8, _ => map[]);
    }

    function GridOf(): Grid
      reads this
    {
      Grid(sectorX, sectorY)
    }

    /** Appends the cell's key if the cell is on the map. */
    static method PushBack(g: Grid, c: Cell, cells: seq<nat>) returns (r: seq<nat>)
      ensures r == cells + Entry(g, c)
    {
      r := cells;
      if c.x >= 0 && c.x < g.w && c.y >= 0 && c.y < g.h {
        r := r + [(c.y * g.w + c.x) % UINT32];
      }
    }

    /** The nine-list: directions 0 to 8 in turn. */
    static method NineCell(g: Grid, c: Cell) returns (cells: seq<nat>)
      ensures cells == Nine(g, c)
    {
      cells := [];
      var i := 0;
      while i < 9
        invariant 0 <= i <= 9 && cells == Collect(g, c, ALL[..i])
      {
        assert ALL[i] == i && ALL[..i + 1][..i] == ALL[..i];
        cells := PushBack(g, Plus(c, Off(i)), cells);
        i := i + 1;
      }
      assert ALL[..9] == ALL;
    }

    /** A ring segment: directions (i + dir) % 8 for i from start to end, both
        included. */
    static method RingCell(g: Grid, c: Cell, dir: nat, start: nat, end: nat) returns (cells: seq<nat>)
      requires start <= end
      ensures cells == Collect(g, c, Turn(dir, start, end + 1))
    {
      cells := [];
      var i := start;
      while i <= end
        invariant start <= i <= end + 1 && cells == Collect(g, c, Turn(dir, start, i))
      {
        var iDir: Dir := (i + dir) % 8;
        TurnSnoc(dir, start, i);
        CollectSnoc(g, c, Turn(dir, start, i), iDir);
        cells := PushBack(g, Plus(c, Off(iDir)), cells);
        i := i + 1;
      }
    }

    static method DirectCell(g: Grid, c: Cell, dir: nat) returns (cells: seq<nat>)
      ensures cells == Direct(g, c, dir)
    {
      var start, end := if dir % 2 == 1 then 6 else 7, if dir % 2 == 1 then 10 else 9;
      cells := RingCell(g, c, dir, start, end);
    }

    static method ReverseCell(g: Grid, c: Cell, dir: nat) returns (cells: seq<nat>)
      ensures cells == Reverse(g, c, dir)
    {
      var start, end := if dir % 2 == 1 then 2 else 3, if dir % 2 == 1 then 6 else 5;
      cells := RingCell(g, c, dir, start, end);
    }

    /** Inserts the direct lists of a cell into the eight direct tables. */
    static method AddDirect(g: Grid, c: Cell, key: nat, tables: seq<Table>) returns (r: seq<Table>)
      requires |tables| == 8
      ensures |r| == 8 && forall d :: 0 <= d < 8 ==> r[d] == Insert(tables[d], key, Direct(g, c, d))
    {
      r := tables;
      var dir := 0;
      while dir < 8
        invariant 0 <= dir <= 8 && |r| == 8
        invariant forall d :: 0 <= d < dir ==> r[d] == Insert(tables[d], key, Direct(g, c, d))
        invariant forall d :: dir <= d < 8 ==> r[d] == tables[d]
      {
        var cells := DirectCell(g, c, dir);
        r := r[dir := Insert(r[dir], key, cells)];
        dir := dir + 1;
      }
    }

    static method AddReverse(g: Grid, c: Cell, key: nat, tables: seq<Table>) returns (r: seq<Table>)
      requires |tables| == 8
      ensures |r| == 8 && forall d :: 0 <= d < 8 ==> r[d] == Insert(tables[d], key, Reverse(g, c, d))
    {
      r := tables;
      var dir := 0;
      while dir < 8
        invariant 0 <= dir <= 8 && |r| == 8
        invariant forall d :: 0 <= d < dir ==> r[d] == Insert(tables[d], key, Reverse(g, c, d))
        invariant forall d :: dir <= d < 8 ==> r[d] == tables[d]
      {
        var cells := ReverseCell(g, c, dir);
        r := r[dir := Insert(r[dir], key, cells)];
        dir := dir + 1;
      }
    }

    /** One cell: its nine-list and its eight direct and eight reverse lists. */
    method AddCell(x: nat, y: nat)
      requires Shaped(View()) && InMap(GridOf(), Cell(x, y))
      modifies this`nineMap, this`directMap, this`reverseMap
      ensures View() == Add(old(View()), GridOf(), Cell(x, y))
    {
      var g, c := GridOf(), Cell(x, y);
      var key := (y * sectorX + x) % UINT32;
      assert key == Key(g, c);
      var cells := NineCell(g, c);
      nineMap := Insert(nineMap, key, cells);
      directMap := AddDirect(g, c, key, directMap);
      reverseMap := AddReverse(g, c, key, reverseMap);
    }

    /** The inner loop of the construction: one row of cells. */
    method AddRow(row: nat)
      requires row < sectorY && Shaped(View())
      modifies this`nineMap, this`directMap, this`reverseMap
      ensures View() == AddCells(old(View()), GridOf(), row, sectorX)
    {
      hide Add;
      var col := 0;
      while col < sectorX
        invariant 0 <= col <= sectorX
        invariant View() == AddCells(old(View()), GridOf(), row, col)
      {
        AddCell(col, row);
        col := col + 1;
      }
    }

    method SetSize(x: nat, y: nat)
      requires x < UINT32 && y < UINT32
      modifies this`maxX, this`maxY, this`sectorX, this`sectorY
      ensures maxX == x && maxY == y && sectorX == SectorCount(x) && sectorY == SectorCount(y)
    {
      maxX, maxY := x, y;
      sectorX := (maxX + SCREEN - 1) % UINT32 / SCREEN;
      sectorY := (maxY + SCREEN - 1) % UINT32 / SCREEN;
    }

    /** Builds the tables for a map of the given size. Provided no two cells share
        a key, every cell gets its lists in all seventeen tables; entries left by
        an earlier call stay as they were. */
    method Init(x: nat, y: nat) returns (ok: bool)
      requires x < UINT32 && y < UINT32 && Shaped(View())
      modifies this
      ensures ok && sectorX == SectorCount(x) && sectorY == SectorCount(y)
      ensures View() == AddRows(old(View()), GridOf(), sectorY)
      ensures KeysDistinct(GridOf()) ==> CompleteAll(old(View()), View(), GridOf())
    {
      hide CompleteAll;
      hide KeysDistinct;
      SetSize(x, y);
      ghost var t, g := View(), GridOf();
      var row := 0;
      while row < sectorY
        invariant 0 <= row <= sectorY && View() == AddRows(t, g, row)
        modifies this`nineMap, this`directMap, this`reverseMap
      {
        AddRow(row);
        row := row + 1;
      }
      if KeysDistinct(g) { RowsComplete(t, g); }
      ok := true;
    }
  }
}
