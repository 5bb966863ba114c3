/**
 * BuildManager: the build-mode switch, the selected building, and
 * all-or-nothing placement of a building footprint on an integer grid
 * (0 = free, 1 = occupied), paid for in Glimmers.
 */
module Building {
  import opened Wrappers
  import opened Geometry
  import opened GridMap
  import Currency

  /** Serialized grid settings. */
  const DefaultGridWidth: nat := 10
  const DefaultGridHeight: nat := 10
  const DefaultCellSize: real := 1.0

  datatype BuildingRotation = Up | Down | Left | Right

  /** The parts of a building definition the manager reads: its cost. */
  datatype BuildingSO = BuildingSO(name: string, cost: int)

  /** The manager's own state. */
  datatype BuildManager = BuildManager(isBuildMode: bool, current: Option<BuildingSO>, rotation: BuildingRotation)

  /** The manager before any input: build mode off, nothing selected, rotation Down. */
  const Initial: BuildManager := BuildManager(false, None, Down)

  /** The grid Awake creates: every cell free, out-of-bounds reads free as well. */
  function NewPlacementGrid(width: nat, height: nat, cellSize: real, origin: Vec3): (g: Grid<int>)
    ensures g.Valid() && g.width == width && g.height == height && g.dflt == 0
    ensures forall x, y :: GetGridObject(g, x, y) == 0
  {
    NewGrid(width, height, cellSize, origin, (x, y) => 0, 0)
  }

  /** HandleBuildModeToggle: pressing B flips build mode; otherwise it stays. */
  function HandleBuildModeToggle(m: BuildManager, bPressed: bool): (r: BuildManager)
    ensures r.isBuildMode != m.isBuildMode <==> bPressed
    ensures r.current == m.current && r.rotation == m.rotation
  {
    if bPressed then m.(isBuildMode := !m.isBuildMode) else m
  }

  /** SwitchToRabbitHutch / SwitchToCropTile: select a building and reset the rotation to Down. */
  function SwitchTo(m: BuildManager, building: BuildingSO): (r: BuildManager)
    ensures r.current == Some(building) && r.rotation == Down && r.isBuildMode == m.isBuildMode
  {
    m.(current := Some(building), rotation := Down)
  }

  /** The cell clamp of HandleBuildModeLogic: negative coordinates become 0; there is no upper clamp. */
  function ClampCell(c: Cell): (r: Cell)
    ensures r.x >= 0 && r.y >= 0
    ensures c.x >= 0 ==> r.x == c.x
    ensures c.y >= 0 ==> r.y == c.y
    ensures c.x < 0 ==> r.x == 0
    ensures c.y < 0 ==> r.y == 0
  {
    Cell(if c.x < 0 then 0 else c.x, if c.y < 0 then 0 else c.y)
  }

  predicate Free(g: Grid<int>, c: Cell)
    requires g.Valid()
  {
    GetGridObject(g, c.x, c.y) == 0
  }

  /** The grid after the footprint's writes: in-bounds footprint cells are 1, everything else as before. */
  ghost predicate Occupies(before: Grid<int>, after: Grid<int>, footprint: seq<Cell>)
    requires before.Valid() && after.Valid()
  {
    forall x, y :: GetGridObject(after, x, y) ==
      if Cell(x, y) in footprint && InBounds(before, x, y) then 1 else GetGridObject(before, x, y)
  }

  predicate SameShape(a: Grid<int>, b: Grid<int>) {
    a.width == b.width && a.height == b.height && a.cellSize == b.cellSize && a.origin == b.origin && a.dflt == b.dflt
  }

  /**
   * HandleBuildingPlacement: on a click the player can afford, place the
   * building when the anchor and every footprint cell are free: every
   * footprint cell becomes 1 and the cost is paid. An occupied anchor or
   * footprint cell leaves grid and balance unchanged. Off-grid cells read
   * as free and their writes are dropped.
   */
  method HandleBuildingPlacement(grid: Grid<int>, wallet: Currency.Wallet, clicked: bool,
                                 anchor: Cell, footprint: seq<Cell>, cost: int)
    returns (grid': Grid<int>, wallet': Currency.Wallet, placed: bool)
    requires grid.Valid()
    ensures grid'.Valid() && SameShape(grid, grid')
    ensures placed <==>
      && clicked && Currency.CanAfford(wallet, cost)
      && Free(grid, anchor)
      && (forall i :: 0 <= i < |footprint| ==> Free(grid, footprint[i]))
    ensures placed ==> Occupies(grid, grid', footprint) && wallet' == Currency.RemoveGlimmers(wallet, cost)
    ensures !placed ==> grid' == grid && wallet' == wallet
  {
    grid', wallet', placed := grid, wallet, false;
    if !(clicked && Currency.CanAfford(wallet, cost)) || !Free(grid, anchor) {
      return;
    }
    var i := 0;
    while i < |footprint|
      invariant 0 <= i <= |footprint|
      invariant forall j :: 0 <= j < i ==> Free(grid, footprint[j])
    {
      if !Free(grid, footprint[i]) {
        return;
      }
      i := i + 1;
    }
    i := 0;
    while i < |footprint|
      invariant 0 <= i <= |footprint|
      invariant grid'.Valid() && SameShape(grid, grid')
      invariant Occupies(grid, grid', footprint[..i])
    {
      var c := footprint[i];
      var (g, _) := SetGridObject(grid', c.x, c.y, 1);
      assert footprint[..i + 1] == footprint[..i] + [c];
      grid' := g;
      i := i + 1;
    }
    assert footprint[..i] == footprint;
    wallet' := Currency.RemoveGlimmers(wallet, cost);
    placed := true;
  }

  /** What the player does in one frame. */
  datatype BuildInput = BuildInput(bPressed: bool, clicked: bool, mouseCell: Cell, footprint: seq<Cell>)

  /**
   * BuildManager.Update: toggle build mode, then, in build mode with a
   * building selected, clamp the mouse cell and try to place the building
   * there: it is placed exactly when the click is affordable, the clamped
   * anchor and every footprint cell are free.
   */
  method Update(m: BuildManager, grid: Grid<int>, wallet: Currency.Wallet, input: BuildInput)
    returns (m': BuildManager, grid': Grid<int>, wallet': Currency.Wallet, placed: bool)
    requires grid.Valid()
    ensures m' == HandleBuildModeToggle(m, input.bPressed)
    ensures grid'.Valid() && SameShape(grid, grid')
    ensures placed <==>
      && m'.isBuildMode && m'.current.Some? && input.clicked
      && Currency.CanAfford(wallet, m'.current.value.cost)
      && Free(grid, ClampCell(input.mouseCell))
      && (forall i :: 0 <= i < |input.footprint| ==> Free(grid, input.footprint[i]))
    ensures placed ==>
      && Occupies(grid, grid', input.footprint)
      && wallet' == Currency.RemoveGlimmers(wallet, m'.current.value.cost)
      && wallet'.glimmers == wallet.glimmers - m'.current.value.cost
    ensures !placed ==> grid' == grid && wallet' == wallet
  {
    m' := HandleBuildModeToggle(m, input.bPressed);
    grid', wallet', placed := grid, wallet, false;
    if m'.isBuildMode && m'.current.Some? {
      grid', wallet', placed :=
        HandleBuildingPlacement(grid, wallet, input.clicked, ClampCell(input.mouseCell), input.footprint, m'.current.value.cost);
    }
  }

  // ----- Properties -----

  /** A cell off the grid reads as free, so it never blocks a placement. */
  lemma OffGridCellsReadFree(g: Grid<int>, c: Cell)
    requires g.Valid() && g.dflt == 0
    requires !InBounds(g, c.x, c.y)
    ensures Free(g, c)
  {
  }

  /** Pressing B twice restores the build mode. */
  lemma ToggleTwiceRestores(m: BuildManager)
    ensures HandleBuildModeToggle(HandleBuildModeToggle(m, true), true) == m
  {
  }
}
