/** The uniform-grid spatial index used to find which boundary segments lie
    near a point (src/toolkit/utils/spacial_map.py). The Python class mutates
    itself; here every operation returns the updated map. */
module SpatialMaps {
  import opened Wrappers
  import opened Geometry

  /** A boundary segment stored in the map, with its bounding box and centre. */
  datatype SpatialLineItem = SpatialLineItem(p1: Point, p2: Point) {
    function MinX(): real { if p1.x <= p2.x then p1.x else p2.x }
    function MaxX(): real { if p1.x <= p2.x then p2.x else p1.x }
    function MinY(): real { if p1.y <= p2.y then p1.y else p2.y }
    function MaxY(): real { if p1.y <= p2.y then p2.y else p1.y }
    function Center(): Point { Geometry.Center(Line(p1, p2)) }
    function ToLine(): Line { Line(p1, p2) }
  }

  /** The centre of an item lies inside its bounding box, and the box is
      spanned by the two endpoints. */
  lemma CenterInBox(item: SpatialLineItem)
    ensures item.MinX() <= item.Center().x <= item.MaxX()
    ensures item.MinY() <= item.Center().y <= item.MaxY()
    ensures {item.MinX(), item.MaxX()} == {item.p1.x, item.p2.x}
    ensures {item.MinY(), item.MaxY()} == {item.p1.y, item.p2.y}
  {
  }

  datatype Cell = Cell(x: int, y: int)

  /** `_get_cell_pos_from_position`: floor of each coordinate over the cell size. */
  function CellOf(cellSize: real, p: Point): Cell
    requires cellSize != 0.0
  {
    Cell((p.x / cellSize).Floor, (p.y / cellSize).Floor)
  }

  /** For a positive cell size, a point lies in the half-open square of its cell. */
  lemma CellContains(cellSize: real, p: Point)
    requires cellSize > 0.0
    ensures CellOf(cellSize, p).x as real * cellSize <= p.x < (CellOf(cellSize, p).x as real + 1.0) * cellSize
    ensures CellOf(cellSize, p).y as real * cellSize <= p.y < (CellOf(cellSize, p).y as real + 1.0) * cellSize
  {
    var c := CellOf(cellSize, p);
    FloorDiv(p.x, cellSize);
    FloorDiv(p.y, cellSize);
  }

  lemma FloorDiv(v: real, k: real)
    requires k > 0.0
    ensures ((v / k).Floor as real) * k <= v < (((v / k).Floor as real) + 1.0) * k
  {
    var f := (v / k).Floor as real;
    ScaleBounds(v, k, f);
  }

  lemma ScaleBounds(v: real, k: real, f: real)
    requires k > 0.0 && f <= v / k < f + 1.0
    ensures f * k <= v < (f + 1.0) * k
  {
    DivMul(v, k);
    ScaleBetween(v / k, k, f, v);
  }

  lemma DivMul(v: real, k: real)
    requires k > 0.0
    ensures (v / k) * k == v
  {
  }

  lemma ScaleBetween(q: real, k: real, f: real, v: real)
    requires k > 0.0 && f <= q < f + 1.0 && q * k == v
    ensures f * k <= v < (f + 1.0) * k
  {
    var g := f + 1.0;
    MulLeq(f, q, k);
    MulLt(q, g, k);
    assert v < g * k;
  }

  lemma MulLeq(a: real, b: real, k: real)
    requires a <= b && k > 0.0
    ensures a * k <= b * k
  {
  }

  lemma MulLt(a: real, b: real, k: real)
    requires a < b && k > 0.0
    ensures a * k < b * k
  {
  }

  /** The map: items in insertion order, the grid of item indexes (the nested
      `map[x][y]` dictionaries, flattened to a map keyed by cell), and the
      cache of the last query. */
  datatype SpatialMap = SpatialMap(
    items: seq<SpatialLineItem>,
    grid: map<Cell, seq<nat>>,
    cellSize: real,
    cachedCell: Option<Cell>,
    cachedBoxes: seq<nat>)

  function NewMap(cellSize: real): (m: SpatialMap)
    requires cellSize != 0.0
    ensures Valid(m) && m.cachedCell.None? && |m.items| == 0
  {
    SpatialMap([], map[], cellSize, None, [])
  }

  function Bucket(grid: map<Cell, seq<nat>>, c: Cell): seq<nat> {
    if c in grid then grid[c] else []
  }

  predicate Increasing(s: seq<nat>) {
    forall i, j :: 0 <= i < j < |s| ==> s[i] < s[j]
  }

  function ItemCell(m: SpatialMap, k: nat): Cell
    requires m.cellSize != 0.0 && k < |m.items|
  {
    CellOf(m.cellSize, m.items[k].Center())
  }

  /** The grid files every item exactly once, in the cell of its centre, and
      each cell lists its items in insertion order. */
  ghost predicate Valid(m: SpatialMap) {
    && m.cellSize != 0.0
    && (forall c :: c in m.grid ==> FiledIn(m, c))
    && (forall k :: 0 <= k < |m.items| ==> k in Bucket(m.grid, ItemCell(m, k)))
  }

  /** Every index in the bucket of `c` names an item whose centre lies in `c`. */
  ghost predicate FiledIn(m: SpatialMap, c: Cell)
    requires m.cellSize != 0.0 && c in m.grid
  {
    && Increasing(m.grid[c])
    && forall i :: 0 <= i < |m.grid[c]| ==> m.grid[c][i] < |m.items| && ItemCell(m, m.grid[c][i]) == c
  }

  /** `add_item`: the item gets the next index and is appended to the cell of
      its centre. The query cache is left as it was. */
  function AddItem(m: SpatialMap, item: SpatialLineItem): (r: SpatialMap)
    requires m.cellSize != 0.0
    ensures r.items == m.items + [item] && r.cellSize == m.cellSize
    ensures r.cachedCell == m.cachedCell && r.cachedBoxes == m.cachedBoxes
    ensures Valid(m) ==> Valid(r)
  {
    var c := CellOf(m.cellSize, item.Center());
    var r := m.(items := m.items + [item], grid := m.grid[c := Bucket(m.grid, c) + [|m.items|]]);
    assert Valid(m) ==> Valid(r) by {
      if Valid(m) {
        var n := |m.items|;
        forall k | 0 <= k < |r.items|
          ensures k in Bucket(r.grid, ItemCell(r, k))
        {
          if k < n {
            assert ItemCell(r, k) == ItemCell(m, k);
            assert k in Bucket(m.grid, ItemCell(m, k));
          } else {
            assert ItemCell(r, k) == c;
          }
        }
        forall c' | c' in r.grid
          ensures FiledIn(r, c')
        {
          if c' != c {
            assert FiledIn(m, c');
            forall i | 0 <= i < |r.grid[c']|
              ensures ItemCell(r, r.grid[c'][i]) == ItemCell(m, m.grid[c'][i])
            {
            }
          } else if c in m.grid {
            assert FiledIn(m, c);
            forall i | 0 <= i < |m.grid[c]|
              ensures ItemCell(r, r.grid[c][i]) == ItemCell(m, m.grid[c][i])
            {
            }
          }
        }
      }
    }
    r
  }

  /** The cells within one step of `c` in each direction. */
  predicate Near(a: Cell, c: Cell) {
    -1 <= a.x - c.x <= 1 && -1 <= a.y - c.y <= 1
  }

  function Column(grid: map<Cell, seq<nat>>, x: int, y: int): seq<nat> {
    Bucket(grid, Cell(x, y - 1)) + Bucket(grid, Cell(x, y)) + Bucket(grid, Cell(x, y + 1))
  }

  /** The 3x3 neighbourhood of `c`, column by column (x outer, y inner). */
  function Neighbourhood(grid: map<Cell, seq<nat>>, c: Cell): seq<nat> {
    Column(grid, c.x - 1, c.y) + Column(grid, c.x, c.y) + Column(grid, c.x + 1, c.y)
  }

  /** The neighbourhood of a valid map lists exactly the items whose centre
      cell is within one step of `c`. */
  lemma NeighbourhoodMembers(m: SpatialMap, c: Cell, k: nat)
    requires Valid(m)
    ensures k in Neighbourhood(m.grid, c) <==> k < |m.items| && Near(ItemCell(m, k), c)
  {
    if k < |m.items| && Near(ItemCell(m, k), c) {
      NearInNeighbourhood(m.grid, ItemCell(m, k), c, k);
    }
    if k in Neighbourhood(m.grid, c) {
      var a := NeighbourhoodMember(m.grid, c, k);
      BucketMember(m, a, k);
    }
  }

  lemma NeighbourhoodMember(grid: map<Cell, seq<nat>>, c: Cell, k: nat) returns (a: Cell)
    requires k in Neighbourhood(grid, c)
    ensures Near(a, c) && k in Bucket(grid, a)
  {
    var left, mid, right := Column(grid, c.x - 1, c.y), Column(grid, c.x, c.y), Column(grid, c.x + 1, c.y);
    OneOfThree(k, left, mid, right);
    if k in left {
      a := ColumnMember(grid, c.x - 1, c.y, k);
    } else if k in mid {
      a := ColumnMember(grid, c.x, c.y, k);
    } else {
      a := ColumnMember(grid, c.x + 1, c.y, k);
    }
  }

  lemma NearInNeighbourhood(grid: map<Cell, seq<nat>>, a: Cell, c: Cell, k: nat)
    requires Near(a, c) && k in Bucket(grid, a)
    ensures k in Neighbourhood(grid, c)
  {
    if a.x == c.x - 1 {
      NearInColumn(grid, a, c.x - 1, c.y, k);
    } else if a.x == c.x {
      NearInColumn(grid, a, c.x, c.y, k);
    } else {
      NearInColumn(grid, a, c.x + 1, c.y, k);
    }
    InOneOfThree(k, Column(grid, c.x - 1, c.y), Column(grid, c.x, c.y), Column(grid, c.x + 1, c.y));
  }

  /** An item filed in a cell next to `(x, y)` in the same column is in
      that column. */
  lemma NearInColumn(grid: map<Cell, seq<nat>>, a: Cell, x: int, y: int, k: nat)
    requires a.x == x && -1 <= a.y - y <= 1 && k in Bucket(grid, a)
    ensures k in Column(grid, x, y)
  {
    if a.y == y - 1 {
      assert a == Cell(x, y - 1);
    } else if a.y == y {
      assert a == Cell(x, y);
    } else {
      assert a == Cell(x, y + 1);
    }
    InOneOfThree(k, Bucket(grid, Cell(x, y - 1)), Bucket(grid, Cell(x, y)), Bucket(grid, Cell(x, y + 1)));
  }

  /** Whatever is in three lists put together is in one of them. */
  lemma OneOfThree(k: nat, l: seq<nat>, m: seq<nat>, r: seq<nat>)
    requires k in l + m + r
    ensures k in l || k in m || k in r
  {
    var i :| 0 <= i < |l + m + r| && (l + m + r)[i] == k;
    if i < |l| {
      assert l[i] == k;
    } else if i < |l| + |m| {
      assert m[i - |l|] == k;
    } else {
      assert r[i - |l| - |m|] == k;
    }
  }

  /** Whatever is in one of three lists is in the three put together. */
  lemma InOneOfThree(k: nat, l: seq<nat>, m: seq<nat>, r: seq<nat>)
    requires k in l || k in m || k in r
    ensures k in l + m + r
  {
    if k in l {
      var i :| 0 <= i < |l| && l[i] == k;
      assert (l + m + r)[i] == k;
    } else if k in m {
      var i :| 0 <= i < |m| && m[i] == k;
      assert (l + m + r)[|l| + i] == k;
    } else {
      var i :| 0 <= i < |r| && r[i] == k;
      assert (l + m + r)[|l| + |m| + i] == k;
    }
  }

  lemma BucketMember(m: SpatialMap, a: Cell, k: nat)
    requires Valid(m) && k in Bucket(m.grid, a)
    ensures k < |m.items| && ItemCell(m, k) == a
  {
    assert a in m.grid && FiledIn(m, a);
    var i :| 0 <= i < |m.grid[a]| && m.grid[a][i] == k;
  }

  lemma ColumnMember(grid: map<Cell, seq<nat>>, x: int, y: int, k: nat) returns (a: Cell)
    requires k in Column(grid, x, y)
    ensures a.x == x && -1 <= a.y - y <= 1 && k in Bucket(grid, a)
  {
    var lo, mid, hi := Bucket(grid, Cell(x, y - 1)), Bucket(grid, Cell(x, y)), Bucket(grid, Cell(x, y + 1));
    OneOfThree(k, lo, mid, hi);
    if k in lo {
      a := Cell(x, y - 1);
    } else if k in mid {
      a := Cell(x, y);
    } else {
      a := Cell(x, y + 1);
    }
  }

  /** `get_items`: the indexes of the items filed within one cell of the
      cell of `pos`. A query landing in the same cell as the previous one
      returns the cached list without looking at the grid. */
  function GetItems(m: SpatialMap, pos: Point): (r: (SpatialMap, seq<nat>))
    requires m.cellSize != 0.0
    ensures m.cachedCell == Some(CellOf(m.cellSize, pos)) ==> r == (m, m.cachedBoxes)
    ensures m.cachedCell != Some(CellOf(m.cellSize, pos)) ==>
      && r.0 == m.(cachedCell := Some(CellOf(m.cellSize, pos)), cachedBoxes := r.1)
      && (Valid(m) ==> forall k: nat :: k in r.1 <==> k < |m.items| && Near(ItemCell(m, k), CellOf(m.cellSize, pos)))
    ensures r.0.items == m.items && r.0.grid == m.grid && r.0.cellSize == m.cellSize
  {
    var c := CellOf(m.cellSize, pos);
    if m.cachedCell == Some(c) then (m, m.cachedBoxes)
    else
      var boxes := Neighbourhood(m.grid, c);
      assert Valid(m) ==> forall k: nat :: k in boxes <==> k < |m.items| && Near(ItemCell(m, k), c) by {
        if Valid(m) {
          forall k: nat ensures k in boxes <==> k < |m.items| && Near(ItemCell(m, k), c) {
            NeighbourhoodMembers(m, c, k);
          }
        }
      }
      (m.(cachedCell := Some(c), cachedBoxes := boxes), boxes)
  }

  /** The cached list is what the grid currently says for the cached cell. */
  predicate CacheFresh(m: SpatialMap) {
    m.cachedCell.Some? ==> m.cachedBoxes == Neighbourhood(m.grid, m.cachedCell.value)
  }

  /** While the cache is fresh, a query answers from the grid whether or not
      it hits the cache, and leaves the cache fresh. */
  lemma GetItemsFresh(m: SpatialMap, pos: Point)
    requires m.cellSize != 0.0 && CacheFresh(m)
    ensures GetItems(m, pos).1 == Neighbourhood(m.grid, CellOf(m.cellSize, pos))
    ensures CacheFresh(GetItems(m, pos).0)
  {
  }

  /** A query after an insertion into the cached cell still answers from the
      cache, so it misses the new item: the cache is only sound when, as in
      the smoother, every item is added before the first query. */
  lemma CacheNotInvalidatedByAdd()
    ensures var m0 := NewMap(1.0);
            var (m1, first) := GetItems(m0, Point(0.5, 0.5));
            var m2 := AddItem(m1, SpatialLineItem(Point(0.0, 0.5), Point(1.0, 0.5)));
            var (_, second) := GetItems(m2, Point(0.5, 0.5));
            first == [] && second == [] && |m2.items| == 1 && ItemCell(m2, 0) == CellOf(1.0, Point(0.5, 0.5))
  {
  }
}
