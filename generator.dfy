/** The training-data generator of rpgenerator.py: the 34-module pixel
    layout around the centre, the value normalisation, and the selection of
    training sequences from the sequence, path and veto files. */
module Generator {
  import opened Util
  import BinFile

  // ------------------------------------------------------------ layout

  /** Module numbers: 0-31 ring/sector modules (ring base 0, 8, 16, 24 from
      the outside in, eight sectors each), 32 the bullseye, 33 the tripwire. */
  type ModuleId = m: nat | m < 34

  const ModuleCount: nat := 34
  const BullseyeModule: ModuleId := 32
  const TripwireModule: ModuleId := 33

  /** The six radii, each `int(r / scaling)`. */
  datatype Radii = Radii(r1: int, r2: int, r3: int, r4: int, r5: int, trip: int)

  function ScaledRadii(scaling: int): (rd: Radii)
    requires scaling != 0
    ensures scaling == 1 ==> rd == Radii(20, 60, 100, 170, 240, 25)
    ensures scaling > 0 ==> rd == Radii(20 / scaling, 60 / scaling, 100 / scaling,
                                        170 / scaling, 240 / scaling, 25 / scaling)
  {
    Radii(TruncDiv(20, scaling), TruncDiv(60, scaling), TruncDiv(100, scaling),
          TruncDiv(170, scaling), TruncDiv(240, scaling), TruncDiv(25, scaling))
  }

  /** `math.sqrt(d2) <= r` for a squared integer distance d2 >= 0. */
  predicate Within(d2: int, r: int)
  {
    r >= 0 && d2 <= r * r
  }

  /** The module of a first-quadrant pixel at offset (dI, dJ) from the centre:
      the innermost radius that bounds it picks the ring, the side of the
      diagonal picks the even or odd sector; None beyond the outer radius. */
  function Classify(dI: int, dJ: int, rd: Radii): Option<ModuleId>
  {
    var d2 := dI * dI + dJ * dJ;
    var side := if dJ < dI then 0 else 1;
    if Within(d2, rd.r1) then Some(BullseyeModule)
    else if Within(d2, rd.r2) then Some(24 + side)
    else if Within(d2, rd.r3) then Some(16 + side)
    else if Within(d2, rd.r4) then Some(8 + side)
    else if Within(d2, rd.r5) then Some(side)
    else None
  }

  /** How far in a module lies: 4 for the bullseye, 3 for ring base 24 down to
      0 for ring base 0. */
  function Level(m: ModuleId): nat
  {
    if m == BullseyeModule then 4 else m / 8
  }

  /** The first-quadrant modules are the left sector (even) of a ring if and
      only if the pixel lies below the diagonal. */
  lemma Classify_Sector(dI: int, dJ: int, rd: Radii)
    requires Classify(dI, dJ, rd).Some? && Classify(dI, dJ, rd).value != BullseyeModule
    ensures var m := Classify(dI, dJ, rd).value;
            m < 32 && m % 8 < 2 && (m % 8 == 0 <==> dJ < dI)
  {
  }

  /** A nearer pixel is never classified into an outer ring than a farther
      one, and a pixel nearer than a classified one is classified too. */
  lemma Classify_Nested(dI: int, dJ: int, eI: int, eJ: int, rd: Radii)
    requires dI * dI + dJ * dJ <= eI * eI + eJ * eJ
    requires Classify(eI, eJ, rd).Some?
    ensures Classify(dI, dJ, rd).Some?
    ensures Level(Classify(dI, dJ, rd).value) >= Level(Classify(eI, eJ, rd).value)
  {
    var d2, e2 := dI * dI + dJ * dJ, eI * eI + eJ * eJ;
    assert forall r :: Within(e2, r) ==> Within(d2, r);
  }

  /** One column scan: pixels (i, j), (i, j-1), ... down to row 1, each with
      its module, stopping at the first pixel beyond the outer radius. */
  function Column(i: int, j: int, c: Pixel, rd: Radii): seq<(Pixel, ModuleId)>
    decreases j
  {
    if j <= 0 then []
    else match Classify(i - c.0, c.1 - j, rd)
      case None => []
      case Some(m) => [((i, j), m)] + Column(i, j - 1, c, rd)
  }

  /** The cells found by the first k column scans, columns c.0 .. c.0+k-1. */
  function Scan(c: Pixel, rd: Radii, k: nat): seq<(Pixel, ModuleId)>
  {
    if k == 0 then [] else Scan(c, rd, k - 1) + Column(c.0 + k - 1, c.1, c, rd)
  }

  /** The number of columns `range(c.0, 2*c.0)` visits. */
  function Columns(c: Pixel): nat
  {
    if c.0 > 0 then c.0 else 0
  }

  /** 34 empty lists, then the centre appended to the bullseye. */
  function Initial(c: Pixel): (mods: seq<seq<Pixel>>)
    ensures |mods| == ModuleCount
  {
    seq(ModuleCount, m => if m == BullseyeModule then [c] else [])
  }

  /** Append every cell's pixel to its module, in order. */
  function Place(mods: seq<seq<Pixel>>, cells: seq<(Pixel, ModuleId)>): (r: seq<seq<Pixel>>)
    requires |mods| == ModuleCount
    ensures |r| == ModuleCount
    decreases |cells|
  {
    if cells == [] then mods
    else Place(mods[cells[0].1 := mods[cells[0].1] + [cells[0].0]], cells[1..])
  }

  /** The pixels of the cells assigned to module m, in order. */
  function Select(cells: seq<(Pixel, ModuleId)>, m: ModuleId): seq<Pixel>
  {
    if cells == [] then []
    else (if cells[0].1 == m then [cells[0].0] else []) + Select(cells[1..], m)
  }

  /** The modules after the first-quadrant scan. */
  function Quadrant(c: Pixel, rd: Radii): (mods: seq<seq<Pixel>>)
    ensures |mods| == ModuleCount
  {
    Place(Initial(c), Scan(c, rd, Columns(c)))
  }

  lemma {:induction false} Place_Append(mods: seq<seq<Pixel>>, a: seq<(Pixel, ModuleId)>,
                                        b: seq<(Pixel, ModuleId)>)
    requires |mods| == ModuleCount
    ensures Place(mods, a + b) == Place(Place(mods, a), b)
    decreases |a|
  {
    if a == [] {
      assert a + b == b;
    } else {
      assert (a + b)[0] == a[0];
      assert (a + b)[1..] == a[1..] + b;
      Place_Append(mods[a[0].1 := mods[a[0].1] + [a[0].0]], a[1..], b);
    }
  }

  /** Placing cells appends to each module exactly the cells assigned to it. */
  lemma {:induction false} Place_Select(mods: seq<seq<Pixel>>, cells: seq<(Pixel, ModuleId)>, m: ModuleId)
    requires |mods| == ModuleCount
    ensures Place(mods, cells)[m] == mods[m] + Select(cells, m)
    decreases |cells|
  {
    if cells != [] {
      var next := mods[cells[0].1 := mods[cells[0].1] + [cells[0].0]];
      Place_Select(next, cells[1..], m);
      if cells[0].1 == m {
        assert next[m] + Select(cells[1..], m) == mods[m] + Select(cells, m);
      }
    }
  }

  /** Every cell carries the module its offset classifies into. */
  predicate Classified(cells: seq<(Pixel, ModuleId)>, c: Pixel, rd: Radii)
  {
    forall k :: 0 <= k < |cells| ==>
      Classify(cells[k].0.0 - c.0, c.1 - cells[k].0.1, rd) == Some(cells[k].1)
  }

  /** Every cell lies in the scanned quadrant: c.0 <= i < c.0 + n, 1 <= j <= c.1. */
  predicate InQuadrant(cells: seq<(Pixel, ModuleId)>, c: Pixel, n: int)
  {
    forall k :: 0 <= k < |cells| ==>
      c.0 <= cells[k].0.0 < c.0 + n && 1 <= cells[k].0.1 <= c.1
  }

  /** A column scan visits rows j, j-1, ... consecutively, and when it stops
      before row 1 the next pixel lies beyond the outer radius. */
  lemma {:induction false} Column_Shape(i: int, j: int, c: Pixel, rd: Radii)
    ensures var col := Column(i, j, c, rd);
            Classified(col, c, rd) && |col| <= (if j > 0 then j else 0) &&
            (forall k :: 0 <= k < |col| ==> col[k].0 == (i, j - k)) &&
            (|col| < j ==> Classify(i - c.0, c.1 - (j - |col|), rd).None?)
    decreases j
  {
    var cl := Classify(i - c.0, c.1 - j, rd);
    if j > 0 && cl.Some? {
      Column_Shape(i, j - 1, c, rd);
      var col, rest := Column(i, j, c, rd), Column(i, j - 1, c, rd);
      assert col == [((i, j), cl.value)] + rest;
      Classified_Cons(((i, j), cl.value), rest, c, rd);
      assert forall k :: 1 <= k < |col| ==> col[k] == rest[k - 1];
      assert j - |col| == (j - 1) - |rest|;
    }
  }

  lemma Classified_Cons(cell: (Pixel, ModuleId), cells: seq<(Pixel, ModuleId)>, c: Pixel, rd: Radii)
    requires Classified(cells, c, rd) && Classify(cell.0.0 - c.0, c.1 - cell.0.1, rd) == Some(cell.1)
    ensures Classified([cell] + cells, c, rd)
  {
    var all := [cell] + cells;
    forall k | 0 <= k < |all|
      ensures Classify(all[k].0.0 - c.0, c.1 - all[k].0.1, rd) == Some(all[k].1)
    {
      if k > 0 { assert all[k] == cells[k - 1]; }
    }
  }

  lemma {:induction false} Scan_Shape(c: Pixel, rd: Radii, k: nat)
    ensures Classified(Scan(c, rd, k), c, rd) && InQuadrant(Scan(c, rd, k), c, k)
  {
    if k > 0 {
      Scan_Shape(c, rd, k - 1);
      var i := c.0 + k - 1;
      var prev, col := Scan(c, rd, k - 1), Column(i, c.1, c, rd);
      assert Scan(c, rd, k) == prev + col;
      Column_Shape(i, c.1, c, rd);
      Classified_Append(prev, col, c, rd);
      assert InQuadrant(col, c, k) by {
        forall t | 0 <= t < |col| ensures c.0 <= col[t].0.0 < c.0 + k && 1 <= col[t].0.1 <= c.1 {
          assert col[t].0 == (i, c.1 - t);
        }
      }
      InQuadrant_Append(prev, col, c, k);
    }
  }

  lemma Classified_Append(a: seq<(Pixel, ModuleId)>, b: seq<(Pixel, ModuleId)>, c: Pixel, rd: Radii)
    requires Classified(a, c, rd) && Classified(b, c, rd)
    ensures Classified(a + b, c, rd)
  {
    var all := a + b;
    forall k | 0 <= k < |all|
      ensures Classify(all[k].0.0 - c.0, c.1 - all[k].0.1, rd) == Some(all[k].1)
    {
      if k >= |a| { assert all[k] == b[k - |a|]; } else { assert all[k] == a[k]; }
    }
  }

  lemma InQuadrant_Append(a: seq<(Pixel, ModuleId)>, b: seq<(Pixel, ModuleId)>, c: Pixel, n: int)
    requires InQuadrant(a, c, n - 1) && InQuadrant(b, c, n)
    ensures InQuadrant(a + b, c, n)
  {
    var all := a + b;
    forall k | 0 <= k < |all|
      ensures c.0 <= all[k].0.0 < c.0 + n && 1 <= all[k].0.1 <= c.1
    {
      if k >= |a| { assert all[k] == b[k - |a|]; } else { assert all[k] == a[k]; }
    }
  }

  lemma {:induction false} Select_Sub(cells: seq<(Pixel, ModuleId)>, m: ModuleId, p: Pixel)
    requires p in Select(cells, m)
    ensures exists k :: 0 <= k < |cells| && cells[k] == (p, m)
    decreases |cells|
  {
    if cells[0].1 == m && cells[0].0 == p {
      assert cells[0] == (p, m);
    } else {
      Select_Sub(cells[1..], m, p);
      var k :| 0 <= k < |cells[1..]| && cells[1..][k] == (p, m);
      assert cells[k + 1] == (p, m);
    }
  }

  /** buildModules, first quadrant: module m holds (after the centre in the
      bullseye) exactly the scanned pixels classified into it, each in the
      quadrant to the right of and at or above the centre. */
  lemma Quadrant_Classified(c: Pixel, rd: Radii, m: ModuleId, p: Pixel)
    requires p in Quadrant(c, rd)[m]
    ensures (m == BullseyeModule && p == c) ||
            (Classify(p.0 - c.0, c.1 - p.1, rd) == Some(m) &&
             c.0 <= p.0 < 2 * c.0 && 1 <= p.1 <= c.1)
  {
    var cells := Scan(c, rd, Columns(c));
    Place_Select(Initial(c), cells, m);
    Scan_Shape(c, rd, Columns(c));
    if p !in Initial(c)[m] {
      assert p in Select(cells, m);
      Select_Sub(cells, m, p);
    }
  }

  /** The converse: every pixel of the quadrant scanned by lines 101-129
      that is classified into m ends up in module m, so together with
      Quadrant_Classified the modules split the classified quadrant pixels
      exactly by their classification. */
  lemma Quadrant_Complete(c: Pixel, rd: Radii, m: ModuleId, p: Pixel)
    requires c.0 <= p.0 < 2 * c.0 && 1 <= p.1 <= c.1
    requires Classify(p.0 - c.0, c.1 - p.1, rd) == Some(m)
    ensures p in Quadrant(c, rd)[m]
  {
    var cells := Scan(c, rd, Columns(c));
    Column_Contains(p.0, c.1, c, rd, p.1);
    Scan_Contains(c, rd, Columns(c), p.0 - c.0, (p, m));
    Select_In(cells, (p, m));
    Place_Select(Initial(c), cells, m);
  }

  /** A column scan from row j reaches every classified row jp <= j of the
      column below the centre row: the rows before it lie nearer the centre. */
  lemma {:induction false} Column_Contains(i: int, j: int, c: Pixel, rd: Radii, jp: int)
    requires 1 <= jp <= j <= c.1 && Classify(i - c.0, c.1 - jp, rd).Some?
    ensures ((i, jp), Classify(i - c.0, c.1 - jp, rd).value) in Column(i, j, c, rd)
    decreases j
  {
    var dI := i - c.0;
    assert (c.1 - j) * (c.1 - j) <= (c.1 - jp) * (c.1 - jp) by {
      MulMono(c.1 - j, c.1 - jp);
    }
    Classify_Nested(dI, c.1 - j, dI, c.1 - jp, rd);
    var cl := Classify(dI, c.1 - j, rd);
    assert Column(i, j, c, rd) == [((i, j), cl.value)] + Column(i, j - 1, c, rd);
    if jp < j {
      Column_Contains(i, j - 1, c, rd, jp);
    }
  }

  lemma MulMono(a: int, b: int)
    requires 0 <= a <= b
    ensures a * a <= b * b
  {
  }

  /** The first k column scans include the scan of column c.0 + t for t < k. */
  lemma {:induction false} Scan_Contains(c: Pixel, rd: Radii, k: nat, t: nat, cell: (Pixel, ModuleId))
    requires t < k && cell in Column(c.0 + t, c.1, c, rd)
    ensures cell in Scan(c, rd, k)
  {
    if t < k - 1 {
      Scan_Contains(c, rd, k - 1, t, cell);
    }
  }

  lemma {:induction false} Select_In(cells: seq<(Pixel, ModuleId)>, cell: (Pixel, ModuleId))
    requires cell in cells
    ensures cell.0 in Select(cells, cell.1)
    decreases |cells|
  {
    if cells[0] != cell {
      assert cell in cells[1..];
      Select_In(cells[1..], cell);
    }
  }

  // ------------------------------------------------------------ rotation

  /** `[p[1], -p[0]]`: a quarter turn in absolute coordinates. */
  function Rot(p: Pixel): Pixel { (p.1, -p.0) }

  function RotAll(s: seq<Pixel>): (r: seq<Pixel>)
    ensures |r| == |s| && forall k :: 0 <= k < |s| ==> r[k] == Rot(s[k])
  {
    seq(|s|, k requires 0 <= k < |s| => Rot(s[k]))
  }

  /** n quarter turns. */
  function RotN(n: nat, s: seq<Pixel>): (r: seq<Pixel>)
    ensures |r| == |s|
  {
    if n == 0 then s else RotAll(RotN(n - 1, s))
  }

  /** The bullseye after n - 1 rounds: chunks 0 .. n-1, chunk k turned k times. */
  function Bullseye(s: seq<Pixel>, n: nat): seq<Pixel>
  {
    if n == 0 then [] else Bullseye(s, n - 1) + RotN(n - 1, s)
  }

  /** The layout after the rotation step: sector k of a ring is sector k % 2
      of the first quadrant turned k / 2 times; the bullseye is the first
      quadrant's bullseye followed by six turned copies; the tripwire is as
      it was. */
  function Rotated(q: seq<seq<Pixel>>): (mods: seq<seq<Pixel>>)
    requires |q| == ModuleCount
    ensures |mods| == ModuleCount && forall m :: 0 <= m < ModuleCount ==> mods[m] == RotatedAt(q, m)
  {
    seq(ModuleCount, m requires 0 <= m < ModuleCount => RotatedAt(q, m))
  }

  function RotatedAt(q: seq<seq<Pixel>>, m: nat): seq<Pixel>
    requires |q| == ModuleCount && m < ModuleCount
  {
    if m < 32 then RotN((m % 8) / 2, q[m - m % 8 + m % 2])
    else if m == BullseyeModule then Bullseye(q[32], 7)
    else q[33]
  }

  lemma {:induction false} Bullseye_Length(s: seq<Pixel>, n: nat)
    ensures |Bullseye(s, n)| == n * |s|
  {
    if n > 0 {
      Bullseye_Length(s, n - 1);
      assert n * |s| == (n - 1) * |s| + |s|;
    }
  }

  /** Entry p of chunk k of the bullseye. */
  lemma {:induction false} Bullseye_Chunk(s: seq<Pixel>, n: nat, k: nat, p: nat)
    requires k < n && p < |s|
    ensures k * |s| + p < |Bullseye(s, n)| && Bullseye(s, n)[k * |s| + p] == RotN(k, s)[p]
  {
    Bullseye_Length(s, n - 1);
    assert (n - 1) * |s| + |s| == n * |s|;
    if k < n - 1 {
      Bullseye_Chunk(s, n - 1, k, p);
      assert k * |s| + p < (n - 1) * |s|;
    } else {
      assert k * |s| == (n - 1) * |s|;
    }
  }

  /** The step at lines 136-138: sector k+2 of every ring is sector k turned. */
  lemma Rotated_Step(q: seq<seq<Pixel>>, ring: nat, k: nat)
    requires |q| == ModuleCount && ring < 4 && k < 6
    ensures RotAll(RotatedAt(q, 8 * ring + k)) == RotatedAt(q, 8 * ring + k + 2)
  {
    var m := 8 * ring + k;
    SectorIndex(ring, k);
    SectorIndex(ring, k + 2);
    assert (k + 2) / 2 == k / 2 + 1 && (k + 2) % 2 == k % 2;
    assert RotatedAt(q, m) == RotN(k / 2, q[8 * ring + k % 2]);
    assert RotatedAt(q, m + 2) == RotN(k / 2 + 1, q[8 * ring + k % 2]);
  }

  /** Module 8 * ring + k is sector k of ring `ring`, of k's parity. */
  lemma SectorIndex(ring: nat, k: nat)
    requires k < 8
    ensures (8 * ring + k) % 8 == k && (8 * ring + k) / 8 == ring && (8 * ring + k) % 2 == k % 2
  {
  }

  /** Sectors of equal parity in a ring hold the same number of pixels. */
  lemma Rotated_Sizes(q: seq<seq<Pixel>>, ring: nat, k: nat)
    requires |q| == ModuleCount && ring < 4 && k < 8
    ensures |Rotated(q)[8 * ring + k]| == |q[8 * ring + k % 2]|
  {
    var m := 8 * ring + k;
    SectorIndex(ring, k);
    assert RotatedAt(q, m) == RotN(k / 2, q[8 * ring + k % 2]);
  }

  /** Once the tripwire is set, same-parity sectors of a ring are equally
      long. */
  lemma Layout_Sectors(q: seq<seq<Pixel>>, trip: seq<Pixel>, ring: nat, k: nat)
    requires |q| == ModuleCount && ring < 4 && k < 8
    ensures |Rotated(q)[TripwireModule := trip][8 * ring + k]| ==
            |Rotated(q)[TripwireModule := trip][8 * ring + k % 2]|
  {
    var mods := Rotated(q)[TripwireModule := trip];
    Rotated_Sizes(q, ring, k);
    Rotated_Sizes(q, ring, k % 2);
    assert mods[8 * ring + k] == Rotated(q)[8 * ring + k];
    assert mods[8 * ring + k % 2] == Rotated(q)[8 * ring + k % 2];
  }

  /** ... and the bullseye is seven times the first-quadrant one. */
  lemma Layout_Bullseye(q: seq<seq<Pixel>>, trip: seq<Pixel>)
    requires |q| == ModuleCount
    ensures |Rotated(q)[TripwireModule := trip][BullseyeModule]| == 7 * |q[BullseyeModule]|
  {
    assert Rotated(q)[TripwireModule := trip][BullseyeModule] == Bullseye(q[32], 7);
    Bullseye_Length(q[32], 7);
  }

  /** The bullseye ends with exactly seven chunks, chunk k+1 the quarter
      turn of chunk k. */
  lemma Rotated_Bullseye(q: seq<seq<Pixel>>, k: nat, p: nat)
    requires |q| == ModuleCount && k < 6 && p < |q[32]|
    ensures |Rotated(q)[32]| == 7 * |q[32]|
    ensures Rotated(q)[32][(k + 1) * |q[32]| + p] == Rot(Rotated(q)[32][k * |q[32]| + p])
  {
    var s := q[32];
    Bullseye_Length(s, 7);
    Bullseye_Chunk(s, 7, k, p);
    Bullseye_Chunk(s, 7, k + 1, p);
  }

  // ------------------------------------------------------------ tripwire

  /** `int(math.sqrt(n))`: the integer square root. */
  function ISqrt(n: int): nat
    decreases if n > 0 then n else 0
  {
    if n <= 0 then 0
    else
      var r := ISqrt(n - 1);
      if (r + 1) * (r + 1) <= n then r + 1 else r
  }

  lemma {:induction false} ISqrt_Bounds(n: int)
    requires n >= 0
    ensures ISqrt(n) * ISqrt(n) <= n < (ISqrt(n) + 1) * (ISqrt(n) + 1)
    decreases n
  {
    if n > 0 {
      ISqrt_Bounds(n - 1);
      var r := ISqrt(n - 1);
      assert (r + 1) * (r + 1) <= n ==> n < (r + 2) * (r + 2);
    }
  }

  /** The four points one value of `radius` adds, in order. */
  function TripPoints(sr: Pixel, tr: int, radius: int): seq<Pixel>
  {
    ArcPoints(sr, radius, ISqrt(tr * tr - radius * radius))
  }

  /** The four points at offset `radius` along one axis and `h` along the
      other, each axis taken both ways as the source mirrors it. */
  function ArcPoints(sr: Pixel, radius: int, h: int): seq<Pixel>
  {
    [(sr.0 + radius, sr.1 + h), (sr.0 + radius, sr.1 - h),
     (sr.0 + h, sr.1 + radius), (sr.0 - h, sr.1 + radius)]
  }

  /** The points for radius -tr .. -tr + n - 1. */
  function TripUpTo(sr: Pixel, tr: int, n: nat): seq<Pixel>
  {
    if n == 0 then [] else TripUpTo(sr, tr, n - 1) + TripPoints(sr, tr, -tr + n - 1)
  }

  /** All candidate points, radius over `range(-tr, tr + 1)`. */
  function TripSweep(sr: Pixel, tr: int): seq<Pixel>
  {
    TripUpTo(sr, tr, if tr >= 0 then 2 * tr + 1 else 0)
  }

  predicate NoDup(s: seq<Pixel>)
  {
    forall a, b :: 0 <= a < b < |s| ==> s[a] != s[b]
  }

  /** `if not p in s: s.append(p)` */
  function AddNew(s: seq<Pixel>, p: Pixel): seq<Pixel>
  {
    if p in s then s else s + [p]
  }

  /** Membership-checked appends of ps, in order, onto acc. */
  function Dedup(acc: seq<Pixel>, ps: seq<Pixel>): seq<Pixel>
    decreases |ps|
  {
    if ps == [] then acc else Dedup(AddNew(acc, ps[0]), ps[1..])
  }

  /** The appends never create a duplicate and lose no point. */
  lemma {:induction false} Dedup_Props(acc: seq<Pixel>, ps: seq<Pixel>)
    ensures NoDup(acc) ==> NoDup(Dedup(acc, ps))
    ensures forall p :: p in Dedup(acc, ps) <==> p in acc || p in ps
    decreases |ps|
  {
    if ps != [] {
      var next := AddNew(acc, ps[0]);
      assert NoDup(acc) ==> NoDup(next);
      assert forall p :: p in ps <==> p == ps[0] || p in ps[1..];
      Dedup_Props(next, ps[1..]);
    }
  }

  lemma {:induction false} Dedup_Append(acc: seq<Pixel>, a: seq<Pixel>, b: seq<Pixel>)
    ensures Dedup(acc, a + b) == Dedup(Dedup(acc, a), b)
    decreases |a|
  {
    if a == [] {
      assert a + b == b;
    } else {
      assert (a + b)[0] == a[0];
      assert (a + b)[1..] == a[1..] + b;
      Dedup_Append(AddNew(acc, a[0]), a[1..], b);
    }
  }

  lemma {:induction false} TripUpTo_Points(sr: Pixel, tr: int, n: nat, k: nat)
    requires k < n
    ensures forall p :: p in TripPoints(sr, tr, -tr + k) ==> p in TripUpTo(sr, tr, n)
  {
    if k < n - 1 {
      TripUpTo_Points(sr, tr, n - 1, k);
    }
  }

  lemma SquareBound(radius: int, tr: int)
    requires -tr <= radius <= tr
    ensures radius * radius <= tr * tr
  {
    if radius >= 0 {
      assert radius * radius <= tr * radius;
      assert tr * radius <= tr * tr;
    } else {
      assert radius * radius <= (-tr) * radius;
      assert (-tr) * radius <= tr * tr;
    }
  }

  /** The tripwire around the sensitive pixel sr: for every swept offset the
      sampled point and its reflection through sr along the swept axis are
      both present, and each lies at the integer circle radius. */
  lemma Tripwire_Reflections(sr: Pixel, tr: int, radius: int)
    requires -tr <= radius <= tr
    ensures var h := ISqrt(tr * tr - radius * radius);
            var t := Dedup([], TripSweep(sr, tr));
            radius * radius + h * h <= tr * tr < radius * radius + (h + 1) * (h + 1) &&
            (sr.0 + radius, sr.1 + h) in t && (sr.0 + radius, 2 * sr.1 - (sr.1 + h)) in t &&
            (sr.0 + h, sr.1 + radius) in t && (2 * sr.0 - (sr.0 + h), sr.1 + radius) in t
  {
    SquareBound(radius, tr);
    ISqrt_Bounds(tr * tr - radius * radius);
    var t := Dedup([], TripSweep(sr, tr));
    Tripwire_Contains(sr, tr, radius);
    ArcPoints_In(sr, radius, ISqrt(tr * tr - radius * radius), t);
  }

  lemma Tripwire_Contains(sr: Pixel, tr: int, radius: int)
    requires -tr <= radius <= tr
    ensures forall p :: p in TripPoints(sr, tr, radius) ==> p in Dedup([], TripSweep(sr, tr))
  {
    TripUpTo_Points(sr, tr, 2 * tr + 1, radius + tr);
    Dedup_Props([], TripSweep(sr, tr));
  }

  lemma ArcPoints_In(sr: Pixel, radius: int, h: int, t: seq<Pixel>)
    requires forall p :: p in ArcPoints(sr, radius, h) ==> p in t
    ensures (sr.0 + radius, sr.1 + h) in t && (sr.0 + radius, 2 * sr.1 - (sr.1 + h)) in t &&
            (sr.0 + h, sr.1 + radius) in t && (2 * sr.0 - (sr.0 + h), sr.1 + radius) in t
  {
    var pts := ArcPoints(sr, radius, h);
    assert pts[0] in pts && pts[1] in pts && pts[2] in pts && pts[3] in pts;
  }

  // ------------------------------------------------------------ layout

  /** The whole module layout buildModules produces. */
  function Layout(c: Pixel, sr: Pixel, rd: Radii): (mods: seq<seq<Pixel>>)
    ensures |mods| == ModuleCount
  {
    Rotated(Quadrant(c, rd))[TripwireModule := Dedup([], TripSweep(sr, rd.trip))]
  }

  /** The first-quadrant scan (lines 97-129), on a list of 34 modules. */
  method ScanQuadrant(c: Pixel, rd: Radii) returns (mods: seq<seq<Pixel>>)
    ensures mods == Quadrant(c, rd)
  {
    mods := Initial(c);
    for k := 0 to Columns(c)
      invariant mods == Place(Initial(c), Scan(c, rd, k))
    {
      Quadrant_Step(c, rd, k, mods);
      mods := ScanColumn(mods, c.0 + k, c, rd);
    }
  }

  /** The scan of column c.0 + k extends the scan of the columns before it. */
  lemma Quadrant_Step(c: Pixel, rd: Radii, k: nat, mods: seq<seq<Pixel>>)
    requires mods == Place(Initial(c), Scan(c, rd, k))
    ensures Place(mods, Column(c.0 + k, c.1, c, rd)) == Place(Initial(c), Scan(c, rd, k + 1))
  {
    Place_Append(Initial(c), Scan(c, rd, k), Column(c.0 + k, c.1, c, rd));
  }

  /** One column of the scan (lines 99-129): walk up from row c.1 until the
      first pixel beyond the outer radius. */
  method ScanColumn(start: seq<seq<Pixel>>, i: int, c: Pixel, rd: Radii) returns (mods: seq<seq<Pixel>>)
    requires |start| == ModuleCount
    ensures mods == Place(start, Column(i, c.1, c, rd))
  {
    mods := start;
    var j := c.1;
    while j > 0
      invariant |mods| == ModuleCount
      invariant Place(mods, Column(i, j, c, rd)) == Place(start, Column(i, c.1, c, rd))
    {
      var m := ClassifyPixel(i - c.0, c.1 - j, rd);
      if m.None? {
        break;
      }
      var cells := Column(i, j, c, rd);
      assert cells == [((i, j), m.value)] + Column(i, j - 1, c, rd);
      assert cells[1..] == Column(i, j - 1, c, rd);
      mods := mods[m.value := mods[m.value] + [(i, j)]];
      j := j - 1;
    }
  }

  /** The radius tests of one pixel (lines 104-127). */
  method ClassifyPixel(dI: int, dJ: int, rd: Radii) returns (m: Option<ModuleId>)
    ensures m == Classify(dI, dJ, rd)
  {
    var d2 := dI * dI + dJ * dJ;
    if Within(d2, rd.r1) {
      m := Some(32);
    } else if Within(d2, rd.r2) {
      m := Some(if dJ < dI then 24 else 25);
    } else if Within(d2, rd.r3) {
      m := Some(if dJ < dI then 16 else 17);
    } else if Within(d2, rd.r4) {
      m := Some(if dJ < dI then 8 else 9);
    } else if Within(d2, rd.r5) {
      m := Some(if dJ < dI then 0 else 1);
    } else {
      m := None;
    }
  }

  /** The copy with rotation (lines 132-143): six rounds, each turning sector
      i of every ring into sector i + 2 and appending the turned chunk i of
      the bullseye, which is read while it grows. */
  method RotateQuadrants(q: seq<seq<Pixel>>) returns (mods: seq<seq<Pixel>>)
    requires |q| == ModuleCount
    ensures mods == Rotated(q)
  {
    mods := q;
    var nB := |q[32]|;
    for i := 0 to 6
      invariant |mods| == ModuleCount
      invariant forall m :: 0 <= m < 32 && m % 8 < i + 2 ==> mods[m] == RotatedAt(q, m)
      invariant forall m :: 0 <= m < 32 && m % 8 >= i + 2 ==> mods[m] == q[m]
      invariant mods[32] == Bullseye(q[32], i + 1)
      invariant mods[33] == q[33]
    {
      mods := TurnSectors(q, mods, i);
      var grown := GrowBullseye(q[32], mods[32], i);
      mods := mods[32 := grown];
    }
    assert forall m :: 0 <= m < ModuleCount ==> mods[m] == RotatedAt(q, m);
  }

  /** One round of lines 137-138. */
  method TurnSectors(q: seq<seq<Pixel>>, cur: seq<seq<Pixel>>, i: nat) returns (mods: seq<seq<Pixel>>)
    requires |q| == ModuleCount && |cur| == ModuleCount && i < 6
    requires forall m :: 0 <= m < 32 && m % 8 < i + 2 ==> cur[m] == RotatedAt(q, m)
    requires forall m :: 0 <= m < 32 && m % 8 >= i + 2 ==> cur[m] == q[m]
    ensures |mods| == ModuleCount && mods[32] == cur[32] && mods[33] == cur[33]
    ensures forall m :: 0 <= m < 32 && m % 8 < i + 3 ==> mods[m] == RotatedAt(q, m)
    ensures forall m :: 0 <= m < 32 && m % 8 >= i + 3 ==> mods[m] == q[m]
  {
    mods := cur;
    for ring := 0 to 4
      invariant |mods| == ModuleCount
      invariant forall m :: 0 <= m < ModuleCount ==> mods[m] == Turned(q, cur, i, ring, m)
    {
      var src := ring * 8 + i;
      Turned_Step(q, cur, i, ring, mods);
      mods := mods[src + 2 := RotAll(mods[src])];
    }
  }

  lemma Turned_Step(q: seq<seq<Pixel>>, cur: seq<seq<Pixel>>, i: nat, ring: nat, mods: seq<seq<Pixel>>)
    requires |q| == ModuleCount && |cur| == ModuleCount && |mods| == ModuleCount && i < 6 && ring < 4
    requires forall m :: 0 <= m < 32 && m % 8 < i + 2 ==> cur[m] == RotatedAt(q, m)
    requires forall m :: 0 <= m < ModuleCount ==> mods[m] == Turned(q, cur, i, ring, m)
    ensures var next := mods[8 * ring + i + 2 := RotAll(mods[8 * ring + i])];
            forall m :: 0 <= m < ModuleCount ==> next[m] == Turned(q, cur, i, ring + 1, m)
  {
    var src := ring * 8 + i;
    SectorIndex(ring, i);
    SectorIndex(ring, i + 2);
    Rotated_Step(q, ring, i);
    assert mods[src] == cur[src];
  }

  /** Module m after `ring` turns of round i. */
  function Turned(q: seq<seq<Pixel>>, cur: seq<seq<Pixel>>, i: nat, ring: nat, m: nat): seq<Pixel>
    requires |q| == ModuleCount && |cur| == ModuleCount && m < ModuleCount
  {
    if m < 32 && m % 8 == i + 2 && m / 8 < ring then RotatedAt(q, m) else cur[m]
  }

  /** One round of lines 141-143: chunk i, turned, appended. */
  method GrowBullseye(s: seq<Pixel>, cur: seq<Pixel>, i: nat) returns (grown: seq<Pixel>)
    requires cur == Bullseye(s, i + 1)
    ensures grown == Bullseye(s, i + 2)
  {
    var nB := |s|;
    Bullseye_Length(s, i + 1);
    grown := cur;
    for p := 0 to nB
      invariant grown == cur + RotN(i + 1, s)[..p]
    {
      Bullseye_Chunk(s, i + 1, i, p);
      var pc := grown[i * nB + p];
      grown := grown + [Rot(pc)];
    }
  }

  /** Four membership-checked appends. */
  lemma Dedup_Four(acc: seq<Pixel>, a: Pixel, b: Pixel, c: Pixel, d: Pixel)
    ensures Dedup(acc, [a, b, c, d]) == AddNew(AddNew(AddNew(AddNew(acc, a), b), c), d)
  {
    var s1 := AddNew(acc, a);
    var s2 := AddNew(s1, b);
    var s3 := AddNew(s2, c);
    assert [a, b, c, d][1..] == [b, c, d];
    assert [b, c, d][1..] == [c, d];
    assert [c, d][1..] == [d];
    assert [d][1..] == [];
    assert Dedup(s3, [d]) == Dedup(AddNew(s3, d), []);
    assert Dedup(s2, [c, d]) == Dedup(s3, [d]);
    assert Dedup(s1, [b, c, d]) == Dedup(s2, [c, d]);
  }

  /** One value of `radius`: the running tripwire grows by that radius's points. */
  lemma TripUpTo_Next(sr: Pixel, tr: int, radius: int)
    requires radius + tr >= 0
    ensures Dedup([], TripUpTo(sr, tr, radius + tr + 1)) ==
            Dedup(Dedup([], TripUpTo(sr, tr, radius + tr)), TripPoints(sr, tr, radius))
  {
    var n: nat := radius + tr + 1;
    assert -tr + n - 1 == radius;
    assert TripUpTo(sr, tr, n) == TripUpTo(sr, tr, n - 1) + TripPoints(sr, tr, radius);
    Dedup_Append([], TripUpTo(sr, tr, radius + tr), TripPoints(sr, tr, radius));
  }

  /** The four points of one radius, in the form the loop computes them. */
  lemma ArcPoints_Added(sr: Pixel, radius: int, h: int, acc: seq<Pixel>)
    ensures Dedup(acc, ArcPoints(sr, radius, h)) ==
            AddNew(AddNew(AddNew(AddNew(acc, (sr.0 + radius, sr.1 + h)), (sr.0 + radius, 2 * sr.1 - (sr.1 + h))),
                          (sr.0 + h, sr.1 + radius)), (2 * sr.0 - (sr.0 + h), sr.1 + radius))
  {
    var a, b, c, d := (sr.0 + radius, sr.1 + h), (sr.0 + radius, 2 * sr.1 - (sr.1 + h)),
                      (sr.0 + h, sr.1 + radius), (2 * sr.0 - (sr.0 + h), sr.1 + radius);
    assert ArcPoints(sr, radius, h) == [a, b, c, d];
    Dedup_Four(acc, a, b, c, d);
  }

  /** The tripwire (lines 147-165), points appended only when new. */
  method TripwireRing(sr: Pixel, tr: int) returns (trip: seq<Pixel>)
    ensures trip == Dedup([], TripSweep(sr, tr))
  {
    trip := [];
    var radius := -tr;
    while radius <= tr
      invariant -tr <= radius && (radius <= tr + 1 || radius == -tr)
      invariant trip == Dedup([], TripUpTo(sr, tr, radius + tr))
    {
      var h := ISqrt(tr * tr - radius * radius);
      TripUpTo_Next(sr, tr, radius);
      assert TripPoints(sr, tr, radius) == ArcPoints(sr, radius, h);
      trip := AddArc(trip, sr, radius, h);
      radius := radius + 1;
    }
  }

  /** Lines 152-165 for one radius: each of the four points is appended
      unless already present. */
  method AddArc(start: seq<Pixel>, sr: Pixel, radius: int, h: int) returns (trip: seq<Pixel>)
    ensures trip == Dedup(start, ArcPoints(sr, radius, h))
  {
    var i1 := sr.0 + radius;
    var j1 := sr.1 + h;
    var j2 := 2 * sr.1 - j1;
    trip := AppendNew(start, (i1, j1));
    trip := AppendNew(trip, (i1, j2));
    j1 := sr.1 + radius;
    i1 := sr.0 + h;
    var i2 := 2 * sr.0 - i1;
    trip := AppendNew(trip, (i1, j1));
    trip := AppendNew(trip, (i2, j1));
    ArcPoints_Added(sr, radius, h, start);
  }

  /** One `if [i, j] not in tripwire: tripwire.append([i, j])`. */
  method AppendNew(s: seq<Pixel>, p: Pixel) returns (t: seq<Pixel>)
    ensures t == AddNew(s, p)
    ensures p in t && (p in s ==> t == s) && (p !in s ==> t == s + [p])
  {
    t := s;
    if p !in t {
      t := t + [p];
    }
  }

  // ------------------------------------------------------------ files

  /** The Python exceptions the generator raises. */
  datatype GenError =
    | NameError          // the unqualified `shuffleSequence()` call
    | ZeroDivisionError  // a scaling or batch size of 0
    | IndexError         // an empty sensitive region

  /** A line of the path file: sequence number and the file it names. */
  datatype PathRecord = PathRecord(seqno: int, path: string)

  /** A line of the sequence file: sequence number, hash field, and the
      integer fields from the fifth on. */
  datatype SeqRecord = SeqRecord(seqno: int, hash: string, values: seq<int>)

  /** The veto file is read only when one is named. */
  function VetoList(vetoFile: Option<seq<int>>): seq<int>
  {
    if vetoFile.Some? then vetoFile.value else []
  }

  predicate Keeps(r: SeqRecord, hash: string, vetoes: seq<int>)
  {
    r.hash == hash && r.seqno !in vetoes
  }

  /** The sequence numbers kept, in file order. */
  function Kept(records: seq<SeqRecord>, hash: string, vetoes: seq<int>): seq<int>
  {
    if records == [] then []
    else
      var last := records[|records| - 1];
      Kept(records[..|records| - 1], hash, vetoes) + (if Keeps(last, hash, vetoes) then [last.seqno] else [])
  }

  /** The path map after the path file: later lines override earlier ones. */
  function Paths(m: map<int, string>, recs: seq<PathRecord>): map<int, string>
  {
    if recs == [] then m
    else Paths(m, recs[..|recs| - 1])[recs[|recs| - 1].seqno := recs[|recs| - 1].path]
  }

  /** The sequence map after the sequence file. */
  function Sequences(m: map<int, seq<int>>, records: seq<SeqRecord>, hash: string,
                     vetoes: seq<int>): map<int, seq<int>>
  {
    if records == [] then m
    else
      var last := records[|records| - 1];
      var before := Sequences(m, records[..|records| - 1], hash, vetoes);
      if Keeps(last, hash, vetoes) then before[last.seqno := last.values] else before
  }

  /** A sequence number is kept exactly when some record with it has the
      generator's hash and is not vetoed. */
  lemma {:induction false} Kept_Member(records: seq<SeqRecord>, hash: string, vetoes: seq<int>, x: int)
    ensures x in Kept(records, hash, vetoes) <==>
            exists k :: 0 <= k < |records| && records[k].seqno == x && Keeps(records[k], hash, vetoes)
  {
    if records != [] {
      var init := records[..|records| - 1];
      Kept_Member(init, hash, vetoes, x);
      if exists k :: 0 <= k < |init| && init[k].seqno == x && Keeps(init[k], hash, vetoes) {
        var k :| 0 <= k < |init| && init[k].seqno == x && Keeps(init[k], hash, vetoes);
        assert records[k] == init[k];
      }
      if exists k :: 0 <= k < |records| && records[k].seqno == x && Keeps(records[k], hash, vetoes) {
        var k :| 0 <= k < |records| && records[k].seqno == x && Keeps(records[k], hash, vetoes);
        if k < |init| { assert init[k] == records[k]; }
      }
    }
  }

  /** The sequence map holds the values of the last kept record of each kept
      number and nothing for numbers not kept. */
  lemma Sequences_Lookup(m: map<int, seq<int>>, records: seq<SeqRecord>, hash: string,
                         vetoes: seq<int>, x: int)
    ensures x in Kept(records, hash, vetoes) ==> x in Sequences(m, records, hash, vetoes)
    ensures x !in Kept(records, hash, vetoes) ==>
              (x in Sequences(m, records, hash, vetoes) <==> x in m) &&
              (x in m ==> Sequences(m, records, hash, vetoes)[x] == m[x])
    ensures forall k :: 0 <= k < |records| && records[k].seqno == x && Keeps(records[k], hash, vetoes) &&
                        (forall l :: k < l < |records| && records[l].seqno == x ==> !Keeps(records[l], hash, vetoes)) ==>
              x in Sequences(m, records, hash, vetoes) && Sequences(m, records, hash, vetoes)[x] == records[k].values
  {
    Sequences_Kept(m, records, hash, vetoes, x);
    Sequences_Other(m, records, hash, vetoes, x);
    forall k | 0 <= k < |records| && records[k].seqno == x && Keeps(records[k], hash, vetoes) &&
               (forall l :: k < l < |records| && records[l].seqno == x ==> !Keeps(records[l], hash, vetoes))
      ensures x in Sequences(m, records, hash, vetoes) && Sequences(m, records, hash, vetoes)[x] == records[k].values
    {
      Sequences_Last(m, records, hash, vetoes, x, k);
    }
  }

  lemma {:induction false} Sequences_Kept(m: map<int, seq<int>>, records: seq<SeqRecord>, hash: string,
                                          vetoes: seq<int>, x: int)
    ensures x in Kept(records, hash, vetoes) ==> x in Sequences(m, records, hash, vetoes)
  {
    if records != [] {
      Sequences_Kept(m, records[..|records| - 1], hash, vetoes, x);
    }
  }

  lemma {:induction false} Sequences_Other(m: map<int, seq<int>>, records: seq<SeqRecord>, hash: string,
                                           vetoes: seq<int>, x: int)
    ensures x !in Kept(records, hash, vetoes) ==>
              (x in Sequences(m, records, hash, vetoes) <==> x in m) &&
              (x in m ==> Sequences(m, records, hash, vetoes)[x] == m[x])
  {
    if records != [] {
      Sequences_Other(m, records[..|records| - 1], hash, vetoes, x);
    }
  }

  lemma {:induction false} Sequences_Last(m: map<int, seq<int>>, records: seq<SeqRecord>, hash: string,
                                          vetoes: seq<int>, x: int, k: nat)
    requires k < |records| && records[k].seqno == x && Keeps(records[k], hash, vetoes)
    requires forall l :: k < l < |records| && records[l].seqno == x ==> !Keeps(records[l], hash, vetoes)
    ensures x in Sequences(m, records, hash, vetoes) && Sequences(m, records, hash, vetoes)[x] == records[k].values
  {
    var init := records[..|records| - 1];
    if k < |init| {
      assert init[k] == records[k];
      assert forall l :: k < l < |init| ==> init[l] == records[l];
      Sequences_Last(m, init, hash, vetoes, x, k);
    }
  }

  /** A number the path file never names keeps its entry (or absence). */
  lemma {:induction false} Paths_Unnamed(m: map<int, string>, recs: seq<PathRecord>, x: int)
    requires forall k :: 0 <= k < |recs| ==> recs[k].seqno != x
    ensures x in Paths(m, recs) <==> x in m
    ensures x in m ==> Paths(m, recs)[x] == m[x]
  {
    if recs != [] {
      Paths_Unnamed(m, recs[..|recs| - 1], x);
    }
  }

  /** A number the path file names maps to the path of its last line. */
  lemma {:induction false} Paths_Last(m: map<int, string>, recs: seq<PathRecord>, x: int, k: nat)
    requires k < |recs| && recs[k].seqno == x
    requires forall l :: k < l < |recs| ==> recs[l].seqno != x
    ensures x in Paths(m, recs) && Paths(m, recs)[x] == recs[k].path
  {
    var init := recs[..|recs| - 1];
    if k < |init| {
      assert init[k] == recs[k];
      Paths_Last(m, init, x, k);
    }
  }

  /** Python's per-element scaling `[int(p[0] / s), int(p[1] / s)]`. */
  function ScalePixel(p: Pixel, scaling: int): Pixel
    requires scaling != 0
  {
    (TruncDiv(p.0, scaling), TruncDiv(p.1, scaling))
  }

  // ------------------------------------------------------------ generator

  class RPDataGenerator {
    var radii: Radii
    var centre: Pixel
    var sensitiveRegion: seq<Pixel>
    var heavy: int
    var batchSize: int
    var scaling: int
    var shuffle: bool
    var hash: string
    var pathmap: map<int, string>
    var seqmap: map<int, seq<int>>
    var seqlist: seq<int>
    var modules: seq<seq<Pixel>>

    /** The field assignments of `__init__` (lines 16-36), with the radii
        already divided by the scaling; NewGenerator makes the divisions and
        then runs buildModules and loadFromFiles. */
    constructor (radii: Radii, centre: Pixel, sensitiveRegion: seq<Pixel>, heavyThreshold: int,
                 batchSize: int, scaling: int, shuffle: bool, md5: seq<byte> -> seq<byte>)
      ensures this.radii == radii && this.centre == centre
      ensures this.sensitiveRegion == sensitiveRegion && heavy == heavyThreshold
      ensures this.batchSize == batchSize && this.scaling == scaling && this.shuffle == shuffle
      ensures hash == BinFile.GenHash(md5, centre, sensitiveRegion, heavyThreshold)
      ensures pathmap == map[] && seqmap == map[] && seqlist == [] && modules == []
    {
      this.radii := radii;
      this.centre := centre;
      this.sensitiveRegion := sensitiveRegion;
      heavy := heavyThreshold;
      this.batchSize := batchSize;
      this.scaling := scaling;
      this.shuffle := shuffle;
      hash := BinFile.GenHash(md5, centre, sensitiveRegion, heavyThreshold);
      pathmap := map[];
      seqmap := map[];
      seqlist := [];
      modules := [];
    }

    /** The modules are the layout around the scaled centre and the scaled
        first sensitive pixel. */
    predicate Built()
      reads this
    {
      scaling != 0 && |sensitiveRegion| > 0 &&
      modules == Layout(ScalePixel(centre, scaling), ScalePixel(sensitiveRegion[0], scaling), radii)
    }

    /** buildModules (lines 89-165): the scaled centre divides by the
        scaling (line 99), and the tripwire needs a first sensitive pixel
        (line 145); each failure leaves the modules as far as they got. */
    method BuildModules() returns (err: Option<GenError>)
      modifies this`modules
      ensures err == if scaling == 0 then Some(ZeroDivisionError)
                     else if |sensitiveRegion| == 0 then Some(IndexError) else None
      ensures err.None? ==> Built()
      ensures scaling == 0 ==> modules == seq(ModuleCount, _ => [])
      ensures scaling != 0 && |sensitiveRegion| == 0 ==>
                modules == Rotated(Quadrant(ScalePixel(centre, scaling), radii))
    {
      if scaling == 0 {
        modules := seq(ModuleCount, _ => []);
        return Some(ZeroDivisionError);
      }
      var c2 := ScalePixel(centre, scaling);
      var q := ScanQuadrant(c2, radii);
      var rotated := RotateQuadrants(q);
      if |sensitiveRegion| == 0 {
        modules := rotated;
        return Some(IndexError);
      }
      var sr2 := ScalePixel(sensitiveRegion[0], scaling);
      var trip := TripwireRing(sr2, radii.trip);
      modules := rotated[TripwireModule := trip];
      err := None;
    }

    /** loadFromFiles (lines 41-69): the path map, then the veto list, then
        the kept sequences; a generator built to shuffle then stops with the
        NameError of the unqualified `shuffleSequence()` call. */
    method LoadFromFiles(paths: seq<PathRecord>, vetoFile: Option<seq<int>>, records: seq<SeqRecord>)
      returns (err: Option<GenError>)
      modifies this`pathmap, this`seqmap, this`seqlist
      ensures pathmap == Paths(old(pathmap), paths)
      ensures seqlist == old(seqlist) + Kept(records, hash, VetoList(vetoFile))
      ensures seqmap == Sequences(old(seqmap), records, hash, VetoList(vetoFile))
      ensures err == if shuffle then Some(NameError) else None
    {
      for k := 0 to |paths|
        invariant pathmap == Paths(old(pathmap), paths[..k])
        invariant seqlist == old(seqlist) && seqmap == old(seqmap)
      {
        assert paths[..k + 1][..k] == paths[..k];
        pathmap := pathmap[paths[k].seqno := paths[k].path];
      }
      assert paths[..|paths|] == paths;

      var vetolist := [];
      if vetoFile.Some? {
        var v := vetoFile.value;
        for k := 0 to |v|
          invariant vetolist == v[..k]
        {
          vetolist := vetolist + [v[k]];
        }
        assert v[..|v|] == v;
      }
      assert vetolist == VetoList(vetoFile);

      ghost var list0, map0 := seqlist, seqmap;
      for k := 0 to |records|
        invariant seqlist == list0 + Kept(records[..k], hash, vetolist)
        invariant seqmap == Sequences(map0, records[..k], hash, vetolist)
        invariant pathmap == Paths(old(pathmap), paths)
      {
        assert records[..k + 1][..k] == records[..k];
        var r := records[k];
        if r.hash != hash {
          continue;
        }
        if r.seqno in vetolist {
          continue;
        }
        seqmap := seqmap[r.seqno := r.values];
        seqlist := seqlist + [r.seqno];
      }
      assert records[..|records|] == records;

      err := if shuffle then Some(NameError) else None;
    }

    /** shuffleSequence (lines 71-72) names neither `random` nor
        `self.seqlist`, so it always stops with a NameError and shuffles
        nothing; on_epoch_end (lines 74-75) only calls it. */
    method ShuffleSequence() returns (err: Option<GenError>)
      ensures err == Some(NameError)
    {
      err := Some(NameError);
    }

    /** `__len__` (lines 77-78): batches of batchSize cover every sequence;
        a batch size of 0 is a division by zero. */
    function Len(): (r: Result<int, GenError>)
      reads this`seqlist, this`batchSize
      ensures r.Err? <==> batchSize == 0
      ensures r.Err? ==> r.error == ZeroDivisionError
      ensures batchSize > 0 ==> r.Ok? && r.value >= 1 && (r.value - 1) * batchSize <= |seqlist| < r.value * batchSize
      ensures batchSize < 0 ==> r.Ok? && r.value <= 1
    {
      if batchSize == 0 then Err(ZeroDivisionError)
      else
        var q := FloorDiv(|seqlist|, batchSize);
        if batchSize > 0 then MulSucc(q, batchSize); Ok(1 + q) else Ok(1 + q)
    }

    /** getModuleSizes (lines 168-172): two inputs per pixel when scaled. */
    function GetModuleSizes(): (sizes: seq<int>)
      reads this`modules, this`scaling
      ensures |sizes| == |modules|
      ensures forall m :: 0 <= m < |modules| ==>
                sizes[m] == if scaling == 1 then |modules[m]| else 2 * |modules[m]|
    {
      var mods, factor := modules, if scaling == 1 then 1 else 2;
      seq(|mods|, m requires 0 <= m < |mods| => factor * |mods[m]|)
    }

    /** After buildModules there are 34 modules, same-parity sectors of a
        ring report equal sizes and the bullseye is seven times the
        first-quadrant one. */
    lemma ModuleSizes_Layout(ring: nat, k: nat)
      requires Built() && ring < 4 && k < 8
      ensures |GetModuleSizes()| == ModuleCount
      ensures GetModuleSizes()[8 * ring + k] == GetModuleSizes()[8 * ring + k % 2]
      ensures |modules[BullseyeModule]| ==
              7 * |Quadrant(ScalePixel(centre, scaling), radii)[BullseyeModule]|
    {
      var c := ScalePixel(centre, scaling);
      var q, trip := Quadrant(c, radii), Dedup([], TripSweep(ScalePixel(sensitiveRegion[0], scaling), radii.trip));
      Layout_Sectors(q, trip, ring, k);
      Layout_Bullseye(q, trip);
      var sizes := GetModuleSizes();
      assert sizes[8 * ring + k] == (if scaling == 1 then 1 else 2) * |modules[8 * ring + k]|;
      assert sizes[8 * ring + k % 2] == (if scaling == 1 then 1 else 2) * |modules[8 * ring + k % 2]|;
    }

    /** normalize (lines 174-178). */
    function Normalize(val: int): real
      reads this`heavy
    {
      if val < heavy then val as real / 20.0 else (5 + val) as real / 20.0
    }

    /** normalize is strictly increasing. */
    lemma Normalize_Increasing(a: int, b: int)
      requires a < b
      ensures Normalize(a) < Normalize(b)
    {
    }

    /** Consecutive values are 1/20 apart except across the heavy threshold,
        where the step is 6/20. */
    lemma Normalize_Step(v: int)
      ensures Normalize(v + 1) - Normalize(v) == if v + 1 == heavy then 6.0 / 20.0 else 1.0 / 20.0
    {
    }
  }

  lemma MulSucc(q: int, b: int)
    requires b > 0
    ensures (q + 1) * b == q * b + b && (q >= 0 <==> q * b >= 0)
  {
  }

  /** `RPDataGenerator(...)` (lines 13-39): the radii divide by the
      scaling, the fields are set, then buildModules and loadFromFiles run;
      an exception from any of them means no generator is returned. */
  method NewGenerator(paths: seq<PathRecord>, vetoFile: Option<seq<int>>, records: seq<SeqRecord>,
                      centre: Pixel, sensitiveRegion: seq<Pixel>, heavyThreshold: int,
                      batchSize: int, scaling: int, shuffle: bool, md5: seq<byte> -> seq<byte>)
    returns (r: Result<RPDataGenerator, GenError>)
    ensures r.Err? <==> scaling == 0 || |sensitiveRegion| == 0 || shuffle
    ensures r.Err? ==> r.error == if scaling == 0 then ZeroDivisionError
                                  else if |sensitiveRegion| == 0 then IndexError else NameError
    ensures r.Ok? ==> fresh(r.value) && r.value.Built()
    ensures r.Ok? ==> r.value.hash == BinFile.GenHash(md5, centre, sensitiveRegion, heavyThreshold)
    ensures r.Ok? ==> r.value.seqlist == Kept(records, r.value.hash, VetoList(vetoFile))
    ensures r.Ok? ==> r.value.pathmap == Paths(map[], paths)
    ensures r.Ok? ==> r.value.seqmap == Sequences(map[], records, r.value.hash, VetoList(vetoFile))
  {
    if scaling == 0 {
      return Err(ZeroDivisionError);
    }
    var g := new RPDataGenerator(ScaledRadii(scaling), centre, sensitiveRegion, heavyThreshold,
                                 batchSize, scaling, shuffle, md5);
    var err := g.BuildModules();
    if err.Some? {
      return Err(err.value);
    }
    err := g.LoadFromFiles(paths, vetoFile, records);
    if err.Some? {
      return Err(err.value);
    }
    r := Ok(g);
  }
}
