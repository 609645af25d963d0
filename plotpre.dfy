/** plotpreproc.py: a 480x480 grid maps each pixel of the radar disc to one
    of 400 modules (20 rings of 20 sectors), and each prepared-data file is
    drawn as three greyscale images, one per value a module carries.
    The ring and sector of a pixel come from `math.sqrt` and `math.atan2`;
    they are parameters here (`ring` of the squared distance, `sector` of
    the two offsets, before the clamp). */
module PlotPre {
  import opened Util

  const NumRings := 20
  const NumRadialCuts := 20
  const NumModules := NumRings * NumRadialCuts
  const GridSize := 480
  const Radius := GridSize / 2
  const R2 := Radius * Radius

  datatype PlotError = IndexError

  // --------------------------------------------------------------- modules

  /** Lines 46-49: the sector index forced into 0 .. numRadialCuts-1. */
  function ClampSector(secnum: int): (s: int)
    ensures 0 <= s < NumRadialCuts
    ensures 0 <= secnum < NumRadialCuts ==> s == secnum
    ensures secnum < 0 ==> s == 0
    ensures secnum >= NumRadialCuts ==> s == NumRadialCuts - 1
  {
    if secnum < 0 then 0 else if secnum >= NumRadialCuts then NumRadialCuts - 1 else secnum
  }

  function SquaredDistance(row: int, col: int): int
  {
    (col - Radius) * (col - Radius) + (row - Radius) * (row - Radius)
  }

  /** Lines 28-52 for one cell [row, col]: -1 outside the disc or when the
      ring index is too large, otherwise ring * numRadialCuts + sector. */
  function ModuleAt(row: int, col: int, ring: int -> nat, sector: (int, int) -> int): (m: int)
    ensures m == -1 || 0 <= m < NumModules
    ensures SquaredDistance(row, col) > R2 ==> m == -1
    ensures m != -1 <==> SquaredDistance(row, col) <= R2 && ring(SquaredDistance(row, col)) < NumRings
    ensures m != -1 ==> m / NumRadialCuts == ring(SquaredDistance(row, col)) &&
                        m % NumRadialCuts == ClampSector(sector(row - Radius, col - Radius))
  {
    var d2 := SquaredDistance(row, col);
    if d2 > R2 then -1
    else
      var ringnum := ring(d2);
      if ringnum >= NumRings then -1
      else
        var secnum := ClampSector(sector(row - Radius, col - Radius));
        ModuleCode(ringnum, secnum);
        ringnum * NumRadialCuts + secnum
  }

  lemma ModuleCode(ringnum: nat, secnum: nat)
    requires ringnum < NumRings && secnum < NumRadialCuts
    ensures 0 <= ringnum * NumRadialCuts + secnum < NumModules
    ensures (ringnum * NumRadialCuts + secnum) / NumRadialCuts == ringnum
    ensures (ringnum * NumRadialCuts + secnum) % NumRadialCuts == secnum
  {
    assert ringnum * NumRadialCuts + secnum <= (NumRings - 1) * NumRadialCuts + secnum;
  }

  /** Line 35 in exact arithmetic: `int(sqrt(d2) / radius * numRings)`,
      i.e. the r with 12r <= sqrt(d2) < 12r + 12. */
  ghost predicate ExactRing(ring: int -> nat)
  {
    forall d2: int :: 0 <= d2 ==>
      (12 * ring(d2)) * (12 * ring(d2)) <= d2 < (12 * ring(d2) + 12) * (12 * ring(d2) + 12)
  }

  /** With exact arithmetic every cell strictly inside the disc has a ring
      below numRings, and the rim cells (d2 == r2) reach ring 20 and so are
      left at -1 by the guard of line 36. */
  lemma ExactRing_Rim(ring: int -> nat, d2: int)
    requires ExactRing(ring) && 0 <= d2 <= R2
    ensures d2 < R2 ==> ring(d2) < NumRings
    ensures d2 == R2 ==> ring(d2) == NumRings
  {
    var r := ring(d2);
    assert (12 * r) * (12 * r) <= d2 < (12 * r + 12) * (12 * r + 12);
    if r > NumRings {
      assert 12 * r >= 252;
      Square_Mono(252, 12 * r);
      assert false;
    }
    if d2 < R2 && r == NumRings {
      assert false;
    }
    if d2 == R2 && r < NumRings {
      assert 12 * r + 12 <= 240;
      Square_Mono(12 * r + 12, 240);
      assert false;
    }
  }

  lemma Square_Mono(a: nat, b: nat)
    requires a <= b
    ensures a * a <= b * b
  {
    assert a * a <= a * b <= b * b;
  }

  /** Every cell of a built module grid holds its ModuleAt value. */
  ghost predicate IsModuleGrid(modules: array2<int>, ring: int -> nat, sector: (int, int) -> int)
    reads modules
  {
    modules.Length0 == GridSize && modules.Length1 == GridSize &&
    forall row, col :: 0 <= row < GridSize && 0 <= col < GridSize ==> modules[row, col] == ModuleAt(row, col, ring, sector)
  }

  /** Lines 16 and 28-52: every cell starts at -1 and the disc is filled
      column by column. */
  method BuildModules(ring: int -> nat, sector: (int, int) -> int) returns (modules: array2<int>)
    ensures fresh(modules)
    ensures IsModuleGrid(modules, ring, sector)
  {
    modules := new int[GridSize, GridSize]((_, _) => -1);
    for pixelCol := 0 to 2 * Radius
      invariant forall row, col :: 0 <= row < GridSize && 0 <= col < pixelCol ==>
                  modules[row, col] == ModuleAt(row, col, ring, sector)
      invariant forall row, col :: 0 <= row < GridSize && pixelCol <= col < GridSize ==> modules[row, col] == -1
    {
      FillColumn(modules, pixelCol, ring, sector);
    }
  }

  /** The inner loop of lines 29-52: column pixelCol, row by row. */
  method FillColumn(modules: array2<int>, pixelCol: nat, ring: int -> nat, sector: (int, int) -> int)
    requires modules.Length0 == GridSize && modules.Length1 == GridSize && pixelCol < GridSize
    requires forall row :: 0 <= row < GridSize ==> modules[row, pixelCol] == -1
    modifies modules
    ensures forall row :: 0 <= row < GridSize ==> modules[row, pixelCol] == ModuleAt(row, pixelCol, ring, sector)
    ensures forall row, col :: 0 <= row < GridSize && 0 <= col < GridSize && col != pixelCol ==>
              modules[row, col] == old(modules[row, col])
  {
    for pixelRow := 0 to 2 * Radius
      invariant forall row :: 0 <= row < pixelRow ==> modules[row, pixelCol] == ModuleAt(row, pixelCol, ring, sector)
      invariant forall row :: pixelRow <= row < GridSize ==> modules[row, pixelCol] == -1
      invariant forall row, col :: 0 <= row < GridSize && 0 <= col < GridSize && col != pixelCol ==>
                  modules[row, col] == old(modules[row, col])
    {
      var d2 := SquaredDistance(pixelRow, pixelCol);
      if d2 > R2 {
        continue;
      }
      var ringnum := ring(d2);
      if ringnum >= NumRings {
        continue;
      }
      var secnum := sector(pixelRow - Radius, pixelCol - Radius);
      if secnum < 0 {
        secnum := 0;
      }
      if secnum >= NumRadialCuts {
        secnum := NumRadialCuts - 1;
      }
      modules[pixelRow, pixelCol] := ringnum * NumRadialCuts + secnum;
    }
  }

  // --------------------------------------------------------------- images

  /** One prepared-data file: the reader's height and width and the values
      its prepared-data object holds, three per module. */
  datatype Prepared = Prepared(numRows: nat, numCols: nat, prepdata: seq<int>)

  /** Cell [row, col] can be drawn: it is inside the module grid, and its
      module's three values are inside prepdata. */
  predicate CellOk(p: Prepared, row: int, col: int, ring: int -> nat, sector: (int, int) -> int)
  {
    0 <= row < GridSize && 0 <= col < GridSize &&
    (ModuleAt(row, col, ring, sector) != -1 ==> 3 * ModuleAt(row, col, ring, sector) + 2 < |p.prepdata|)
  }

  /** No cell of the file's images raises an IndexError. */
  predicate Drawable(p: Prepared, ring: int -> nat, sector: (int, int) -> int)
  {
    forall row, col :: 0 <= row < p.numRows && 0 <= col < p.numCols ==> CellOk(p, row, col, ring, sector)
  }

  /** What image j (0, 1 or 2) shows for a cell of module m: 0 outside the
      disc, otherwise prepdata[3m + j] stored into a uint8. */
  function Channel(m: int, prepdata: seq<int>, j: nat): (v: int)
    requires m == -1 || (0 <= m && 3 * m + j < |prepdata|)
    ensures 0 <= v < 256
    ensures m == -1 ==> v == 0
  {
    if m == -1 then 0 else prepdata[3 * m + j] % 256
  }

  /** Where cell [row, col] sits in a row-major pixel block of width w. */
  function Flat(row: int, col: int, w: int): int { row * w + col }

  /** The three pixel blocks written for a file. */
  datatype Images = Images(block1: seq<int>, block2: seq<int>, block3: seq<int>)

  /** Block j in row-major order, each cell showing its module's value j. */
  ghost predicate Shows(p: Prepared, block: seq<int>, j: nat, ring: int -> nat, sector: (int, int) -> int)
    requires j < 3 && Drawable(p, ring, sector)
  {
    |block| == p.numRows * p.numCols &&
    forall row, col :: 0 <= row < p.numRows && 0 <= col < p.numCols ==>
      CellOk(p, row, col, ring, sector) &&
      0 <= Flat(row, col, p.numCols) < |block| &&
      block[Flat(row, col, p.numCols)] == Channel(ModuleAt(row, col, ring, sector), p.prepdata, j)
  }

  ghost predicate Rendered(p: Prepared, imgs: Images, ring: int -> nat, sector: (int, int) -> int)
  {
    Drawable(p, ring, sector) &&
    Shows(p, imgs.block1, 0, ring, sector) && Shows(p, imgs.block2, 1, ring, sector) &&
    Shows(p, imgs.block3, 2, ring, sector)
  }

  lemma FlatBelow(r: nat, c: nat, row: nat, w: nat)
    requires r < row && c < w
    ensures Flat(r, c, w) < Flat(row, 0, w)
  {
    assert r * w + c < r * w + w == (r + 1) * w <= row * w;
  }

  /** Lines 96-100: a grid read out row by row. */
  method FlattenGrid(grid: array2<int>) returns (oblock: seq<int>)
    ensures |oblock| == grid.Length0 * grid.Length1
    ensures forall row, col :: 0 <= row < grid.Length0 && 0 <= col < grid.Length1 ==>
              0 <= Flat(row, col, grid.Length1) < |oblock| && oblock[Flat(row, col, grid.Length1)] == grid[row, col]
  {
    var w := grid.Length1;
    oblock := [];
    for row := 0 to grid.Length0
      invariant |oblock| == Flat(row, 0, w)
      invariant forall r, c :: 0 <= r < row && 0 <= c < w ==>
                  0 <= Flat(r, c, w) < |oblock| && oblock[Flat(r, c, w)] == grid[r, c]
    {
      ghost var before := oblock;
      forall r, c | 0 <= r < row && 0 <= c < w
        ensures Flat(r, c, w) < Flat(row, 0, w)
      {
        FlatBelow(r, c, row, w);
      }
      for col := 0 to w
        invariant |oblock| == Flat(row, col, w)
        invariant oblock[..Flat(row, 0, w)] == before
        invariant forall c :: 0 <= c < col ==> oblock[Flat(row, c, w)] == grid[row, c]
      {
        oblock := oblock + [grid[row, col]];
      }
      assert Flat(row, w, w) == Flat(row + 1, 0, w);
      forall r, c | 0 <= r < row && 0 <= c < w
        ensures oblock[Flat(r, c, w)] == grid[r, c]
      {
        assert oblock[Flat(r, c, w)] == oblock[..Flat(row, 0, w)][Flat(r, c, w)];
      }
    }
    assert Flat(grid.Length0, 0, w) == grid.Length0 * grid.Length1;
  }

  /** Lines 63-79: the three output arrays, cell by cell in row-major order;
      the first cell outside the module grid or prepdata raises. */
  method Render(modules: array2<int>, p: Prepared, ring: int -> nat, sector: (int, int) -> int)
    returns (r: Result<Images, PlotError>)
    requires IsModuleGrid(modules, ring, sector)
    ensures r.Ok? <==> Drawable(p, ring, sector)
    ensures r.Ok? ==> Rendered(p, r.value, ring, sector)
  {
    var numRows, numCols, prepdata := p.numRows, p.numCols, p.prepdata;
    var output1 := new int[numRows, numCols]((_, _) => 0);
    var output2 := new int[numRows, numCols]((_, _) => 0);
    var output3 := new int[numRows, numCols]((_, _) => 0);
    for row := 0 to numRows
      invariant forall r, c :: 0 <= r < row && 0 <= c < numCols ==>
                  CellOk(p, r, c, ring, sector) && Drawn(output1[r, c], output2[r, c], output3[r, c], p, r, c, ring, sector)
      invariant forall r, c :: row <= r < numRows && 0 <= c < numCols ==>
                  output1[r, c] == 0 && output2[r, c] == 0 && output3[r, c] == 0
    {
      var ok := DrawRow(modules, output1, output2, output3, p, row, ring, sector);
      if !ok {
        return Err(IndexError);
      }
    }
    var block1 := FlattenGrid(output1);
    Flattened_Shows(p, output1, block1, 0, ring, sector);
    var block2 := FlattenGrid(output2);
    Flattened_Shows(p, output2, block2, 1, ring, sector);
    var block3 := FlattenGrid(output3);
    Flattened_Shows(p, output3, block3, 2, ring, sector);
    r := Ok(Images(block1, block2, block3));
  }

  /** A fully drawn grid, read out row by row, shows channel j of every cell. */
  lemma Flattened_Shows(p: Prepared, grid: array2<int>, block: seq<int>, j: nat, ring: int -> nat, sector: (int, int) -> int)
    requires j < 3
    requires grid.Length0 == p.numRows && grid.Length1 == p.numCols
    requires forall r, c :: 0 <= r < p.numRows && 0 <= c < p.numCols ==>
               CellOk(p, r, c, ring, sector) && grid[r, c] == Channel(ModuleAt(r, c, ring, sector), p.prepdata, j)
    requires |block| == grid.Length0 * grid.Length1
    requires forall row, col :: 0 <= row < grid.Length0 && 0 <= col < grid.Length1 ==>
               0 <= Flat(row, col, grid.Length1) < |block| && block[Flat(row, col, grid.Length1)] == grid[row, col]
    ensures Drawable(p, ring, sector) && Shows(p, block, j, ring, sector)
  {
  }

  /** The inner loop of lines 68-79: row `row`, column by column. */
  method DrawRow(modules: array2<int>, o1: array2<int>, o2: array2<int>, o3: array2<int>, p: Prepared, row: nat,
                 ring: int -> nat, sector: (int, int) -> int)
    returns (ok: bool)
    requires IsModuleGrid(modules, ring, sector)
    requires o1 != o2 && o1 != o3 && o2 != o3 && modules != o1 && modules != o2 && modules != o3
    requires row < p.numRows
    requires o1.Length0 == o2.Length0 == o3.Length0 == p.numRows
    requires o1.Length1 == o2.Length1 == o3.Length1 == p.numCols
    requires forall c :: 0 <= c < p.numCols ==> o1[row, c] == 0 && o2[row, c] == 0 && o3[row, c] == 0
    modifies o1, o2, o3
    ensures ok <==> forall c :: 0 <= c < p.numCols ==> CellOk(p, row, c, ring, sector)
    ensures ok ==> forall c :: 0 <= c < p.numCols ==> CellOk(p, row, c, ring, sector) && Drawn(o1[row, c], o2[row, c], o3[row, c], p, row, c, ring, sector)
    ensures forall r, c :: 0 <= r < p.numRows && r != row && 0 <= c < p.numCols ==>
              o1[r, c] == old(o1[r, c]) && o2[r, c] == old(o2[r, c]) && o3[r, c] == old(o3[r, c])
  {
    var prepdata := p.prepdata;
    for col := 0 to p.numCols
      invariant forall c :: 0 <= c < col ==> CellOk(p, row, c, ring, sector) && Drawn(o1[row, c], o2[row, c], o3[row, c], p, row, c, ring, sector)
      invariant forall c :: col <= c < p.numCols ==> o1[row, c] == 0 && o2[row, c] == 0 && o3[row, c] == 0
      invariant forall r, c :: 0 <= r < p.numRows && r != row && 0 <= c < p.numCols ==>
                  o1[r, c] == old(o1[r, c]) && o2[r, c] == old(o2[r, c]) && o3[r, c] == old(o3[r, c])
    {
      if row >= modules.Length0 || col >= modules.Length1 {
        assert !CellOk(p, row, col, ring, sector);
        return false;
      }
      var modnum := modules[row, col];
      assert modnum == ModuleAt(row, col, ring, sector);
      if modnum != -1 && 3 * modnum + 2 >= |prepdata| {
        assert !CellOk(p, row, col, ring, sector);
        return false;
      }
      DrawCell(o1, o2, o3, row, col, modnum, prepdata);
    }
    ok := true;
  }

  /** Lines 70-74 for one cell: the module's three values, stored as uint8,
      or nothing outside the disc. */
  method DrawCell(o1: array2<int>, o2: array2<int>, o3: array2<int>, row: nat, col: nat, modnum: int, prepdata: seq<int>)
    requires o1 != o2 && o1 != o3 && o2 != o3
    requires row < o1.Length0 && row < o2.Length0 && row < o3.Length0
    requires col < o1.Length1 && col < o2.Length1 && col < o3.Length1
    requires modnum == -1 || (0 <= modnum && 3 * modnum + 2 < |prepdata|)
    requires modnum == -1 ==> o1[row, col] == 0 && o2[row, col] == 0 && o3[row, col] == 0
    modifies o1, o2, o3
    ensures o1[row, col] == Channel(modnum, prepdata, 0) && o2[row, col] == Channel(modnum, prepdata, 1) &&
            o3[row, col] == Channel(modnum, prepdata, 2)
    ensures forall r, c :: 0 <= r < o1.Length0 && 0 <= c < o1.Length1 && (r, c) != (row, col) ==> o1[r, c] == old(o1[r, c])
    ensures forall r, c :: 0 <= r < o2.Length0 && 0 <= c < o2.Length1 && (r, c) != (row, col) ==> o2[r, c] == old(o2[r, c])
    ensures forall r, c :: 0 <= r < o3.Length0 && 0 <= c < o3.Length1 && (r, c) != (row, col) ==> o3[r, c] == old(o3[r, c])
  {
    if modnum != -1 {
      o1[row, col] := prepdata[modnum * 3] % 256;
      o2[row, col] := prepdata[modnum * 3 + 1] % 256;
      o3[row, col] := prepdata[modnum * 3 + 2] % 256;
    }
  }

  /** The three values drawn at cell [r, c] are its module's three values. */
  predicate Drawn(v1: int, v2: int, v3: int, p: Prepared, r: int, c: int, ring: int -> nat, sector: (int, int) -> int)
    requires CellOk(p, r, c, ring, sector)
  {
    var m := ModuleAt(r, c, ring, sector);
    v1 == Channel(m, p.prepdata, 0) && v2 == Channel(m, p.prepdata, 1) && v3 == Channel(m, p.prepdata, 2)
  }

  /** Lines 11-107: the module grid once, then the files in order until the
      first one that raises. */
  method PlotPreproc(ring: int -> nat, sector: (int, int) -> int, files: seq<Prepared>)
    returns (images: seq<Images>, err: Option<PlotError>)
    ensures |images| <= |files|
    ensures forall k :: 0 <= k < |images| ==> Rendered(files[k], images[k], ring, sector)
    ensures err.None? <==> |images| == |files|
    ensures err.Some? ==> !Drawable(files[|images|], ring, sector)
  {
    var modules := BuildModules(ring, sector);
    images := [];
    for fileind := 0 to |files|
      invariant |images| == fileind
      invariant IsModuleGrid(modules, ring, sector)
      invariant forall k :: 0 <= k < fileind ==> Rendered(files[k], images[k], ring, sector)
    {
      var r := Render(modules, files[fileind], ring, sector);
      if r.Err? {
        return images, Some(r.error);
      }
      images := images + [r.value];
    }
    err := None;
  }
}
