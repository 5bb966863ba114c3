/**
 * Grid<TGridObject>: a bounds-checked width × height store laid out on the
 * XZ plane, with the mapping between cells and world positions.
 */
module GridMap {
  import opened Geometry

  /** A Vector2Int cell coordinate. */
  datatype Cell = Cell(x: int, y: int)

  /**
   * `cells[x][y]` is the object at (x, y); `dflt` is default(TGridObject),
   * what an out-of-bounds read returns.
   */
  datatype Grid<T> = Grid(width: nat, height: nat, cellSize: real, origin: Vec3, cells: seq<seq<T>>, dflt: T) {
    ghost predicate Valid() {
      |cells| == width && forall x :: 0 <= x < |cells| ==> |cells[x]| == height
    }
  }

  /** The change notification OnGridObjectChanged carries: the cell that was written. */
  datatype GridObjectChanged = GridObjectChanged(x: int, y: int)

  predicate InBounds<T>(g: Grid<T>, x: int, y: int) {
    0 <= x && 0 <= y && x < g.width && y < g.height
  }

  /**
   * The Grid constructor: every cell (x, y) with x < width and y < height
   * holds createGridObject(x, y).
   */
  function NewGrid<T>(width: nat, height: nat, cellSize: real, origin: Vec3,
                      createGridObject: (int, int) -> T, dflt: T): (g: Grid<T>)
    ensures g.Valid() && g.width == width && g.height == height
    ensures g.cellSize == cellSize && g.origin == origin && g.dflt == dflt
    ensures forall x, y :: 0 <= x < width && 0 <= y < height ==> GetGridObject(g, x, y) == createGridObject(x, y)
  {
    Grid(width, height, cellSize, origin,
         seq(width, x requires 0 <= x < width => seq(height, y requires 0 <= y < height => createGridObject(x, y))),
         dflt)
  }

  /**
   * GetWorldPosition: the lower-left corner of the cell, (x·cellSize, 0, y·cellSize) + origin.
   * It lies in the origin's plane, and GetXY undoes it for any non-zero cell size.
   */
  function GetWorldPosition<T>(g: Grid<T>, x: int, y: int): (r: Vec3)
    ensures r.y == g.origin.y
    ensures g.cellSize != 0.0 ==> GetXY(g, r) == Cell(x, y)
  {
    var r := Add(Scale(Vec3(x as real, 0.0, y as real), g.cellSize), g.origin);
    DivideScaled(x, g.cellSize, g.origin.x, r.x);
    DivideScaled(y, g.cellSize, g.origin.z, r.z);
    r
  }

  /**
   * GetXY: floor of the origin-relative x and z coordinates divided by the
   * cell size. For a positive cell size the position lies in the half-open
   * square of side cellSize whose lower-left corner is the cell's origin
   * offset.
   */
  function GetXY<T>(g: Grid<T>, p: Vec3): (c: Cell)
    requires g.cellSize != 0.0
    ensures var cs := g.cellSize;
      cs > 0.0 ==>
        && c.x as real * cs + g.origin.x <= p.x < c.x as real * cs + g.origin.x + cs
        && c.y as real * cs + g.origin.z <= p.z < c.y as real * cs + g.origin.z + cs
  {
    var c := Cell(((p.x - g.origin.x) / g.cellSize).Floor, ((p.z - g.origin.z) / g.cellSize).Floor);
    if g.cellSize > 0.0 then
      FloorIsCell(p.x - g.origin.x, g.cellSize, c.x);
      FloorIsCell(p.z - g.origin.z, g.cellSize, c.y);
      c
    else
      c
  }

  /** GetGridObject(x, y): the stored object in bounds, default(T) outside. */
  function GetGridObject<T>(g: Grid<T>, x: int, y: int): (v: T)
    requires g.Valid()
    ensures !InBounds(g, x, y) ==> v == g.dflt
  {
    if InBounds(g, x, y) then g.cells[x][y] else g.dflt
  }

  /**
   * SetGridObject(x, y, value): in bounds, only that cell changes and one
   * change event fires; out of bounds nothing changes and no event fires.
   */
  function SetGridObject<T>(g: Grid<T>, x: int, y: int, value: T): (r: (Grid<T>, seq<GridObjectChanged>))
    requires g.Valid()
    ensures r.0.Valid()
    ensures r.0.width == g.width && r.0.height == g.height && r.0.cellSize == g.cellSize
    ensures r.0.origin == g.origin && r.0.dflt == g.dflt
    ensures InBounds(g, x, y) ==> GetGridObject(r.0, x, y) == value && r.1 == [GridObjectChanged(x, y)]
    ensures !InBounds(g, x, y) ==> r == (g, [])
    ensures forall i, j :: (i != x || j != y) ==> GetGridObject(r.0, i, j) == GetGridObject(g, i, j)
  {
    if InBounds(g, x, y) then
      (g.(cells := g.cells[x := g.cells[x][y := value]]), [GridObjectChanged(x, y)])
    else
      (g, [])
  }

  /** SetGridObject(worldPosition, value): write the cell containing the position. */
  function SetGridObjectAt<T>(g: Grid<T>, p: Vec3, value: T): (r: (Grid<T>, seq<GridObjectChanged>))
    requires g.Valid() && g.cellSize != 0.0
    ensures r.0.Valid()
    ensures var c := GetXY(g, p);
      && (InBounds(g, c.x, c.y) ==> GetGridObject(r.0, c.x, c.y) == value && r.1 == [GridObjectChanged(c.x, c.y)])
      && (!InBounds(g, c.x, c.y) ==> r == (g, []))
      && (forall i, j :: (i != c.x || j != c.y) ==> GetGridObject(r.0, i, j) == GetGridObject(g, i, j))
  {
    var c := GetXY(g, p);
    SetGridObject(g, c.x, c.y, value)
  }

  /** GetGridObject(worldPosition): the object of the cell containing the position. */
  function GetGridObjectAt<T>(g: Grid<T>, p: Vec3): (v: T)
    requires g.Valid() && g.cellSize != 0.0
    ensures v == GetGridObject(g, GetXY(g, p).x, GetXY(g, p).y)
  {
    var c := GetXY(g, p);
    GetGridObject(g, c.x, c.y)
  }

  // ----- Properties -----

  /**
   * For a positive cell size, a position maps to cell (x, y) exactly when
   * it lies in the half-open square whose lower-left corner is
   * GetWorldPosition(x, y).
   */
  lemma GetXYIsCellSquare<T>(g: Grid<T>, p: Vec3, x: int, y: int)
    requires g.cellSize > 0.0
    ensures var corner := GetWorldPosition(g, x, y);
      GetXY(g, p) == Cell(x, y) <==>
        (corner.x <= p.x < corner.x + g.cellSize && corner.z <= p.z < corner.z + g.cellSize)
  {
    var cs := g.cellSize;
    var corner := GetWorldPosition(g, x, y);
    var xc, yc := x as real * cs, y as real * cs;
    assert corner.x == xc + g.origin.x && corner.z == yc + g.origin.z;
    var c := GetXY(g, p);
    assert c.x == ((p.x - g.origin.x) / cs).Floor && c.y == ((p.z - g.origin.z) / cs).Floor;
    FloorIsCell(p.x - g.origin.x, cs, x);
    FloorIsCell(p.z - g.origin.z, cs, y);
  }

  lemma FloorIsCell(d: real, cs: real, n: int)
    requires cs > 0.0
    ensures (d / cs).Floor == n <==> n as real * cs <= d < n as real * cs + cs
  {
    DivideThenMultiply(d, cs);
    CellFromScaled(d / cs, cs, d, n);
  }

  /** A factor q with q * cs == d floors to n exactly when d lies in [n * cs, n * cs + cs). */
  lemma CellFromScaled(q: real, cs: real, d: real, n: int)
    requires cs > 0.0 && q * cs == d
    ensures q.Floor == n <==> n as real * cs <= d < n as real * cs + cs
  {
    var lo := n as real;
    var loC := lo * cs;
    assert (lo + 1.0) * cs == loC + cs;
    FloorIsUnitInterval(q, n);
    ScaleByPositive(lo, q, cs, loC, d);
    ScaleByPositive(q, lo + 1.0, cs, d, loC + cs);
  }

  /** q floors to n exactly when q lies in [n, n + 1). */
  lemma FloorIsUnitInterval(q: real, n: int)
    ensures q.Floor == n <==> n as real <= q < n as real + 1.0
  {
  }

  /** Undoing p = n·cs + o: subtract o, divide by cs and take the floor. */
  lemma DivideScaled(n: int, cs: real, o: real, p: real)
    requires p == n as real * cs + o
    ensures cs != 0.0 ==> ((p - o) / cs).Floor == n
  {
    if cs != 0.0 {
      var ncs := n as real * cs;
      assert p - o == ncs;
      assert ncs / cs == n as real;
      FloorIsUnitInterval(n as real, n);
    }
  }

  lemma DivideThenMultiply(d: real, c: real)
    requires c != 0.0
    ensures (d / c) * c == d
  {
  }

  /** Multiplying both sides by a positive number keeps their order; uc and vc name the products. */
  lemma ScaleByPositive(u: real, v: real, c: real, uc: real, vc: real)
    requires c > 0.0 && uc == u * c && vc == v * c
    ensures u <= v <==> uc <= vc
    ensures u < v <==> uc < vc
  {
    var diff := (v - u) * c;
    assert diff == vc - uc;
    if u < v {
      assert diff > 0.0;
    } else if u == v {
      assert diff == 0.0;
    } else {
      assert diff < 0.0 by { assert (u - v) * c > 0.0; }
    }
  }

  /** Reading a cell right after writing it in bounds gives the written value. */
  lemma GetAfterSet<T>(g: Grid<T>, x: int, y: int, value: T)
    requires g.Valid() && InBounds(g, x, y)
    ensures GetGridObject(SetGridObject(g, x, y, value).0, x, y) == value
  {
  }
}
