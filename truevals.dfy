/** The labelling script prepare-true-vals.py: the grid-exact rotation of
    sensitive pixels, and the rain / heavy-rain / phantom decision for one
    bin file. */
module TrueVals {
  import opened Util

  // ------------------------------------------------------------ rotation

  datatype RotError =
    | InvalidInvocation   // the message and sys.exit(1) at lines 70-73
    | NameError           // the general-angle branch uses the undefined c and s

  function SqDist(p: Pixel, c: Pixel): int
  {
    (p.0 - c.0) * (p.0 - c.0) + (p.1 - c.1) * (p.1 - c.1)
  }

  /** rotate_pixel_CCW: rotNum steps of 2 pi / nDiv counter-clockwise around
      the centre, exact on the grid for nDiv 1, 2 and 4. */
  function RotatePixelCCW(pixel: Pixel, centre: Pixel, nDiv: int, rotNum: int): (r: Result<Pixel, RotError>)
    ensures nDiv == 1 ==> r == Ok(pixel)
    ensures nDiv != 1 && (nDiv <= 0 || rotNum <= 0 || rotNum > nDiv) ==> r == Err(InvalidInvocation)
    ensures r.Ok? <==> nDiv == 1 || (0 < rotNum <= nDiv && (nDiv == 2 || (nDiv == 4 && rotNum < 4)))
    ensures r.Err? && nDiv != 1 && 0 < rotNum <= nDiv ==> r == Err(NameError)
    ensures r.Ok? ==> SqDist(r.value, centre) == SqDist(pixel, centre)
  {
    if nDiv == 1 then Ok(pixel)
    else if nDiv <= 0 || rotNum <= 0 || rotNum > nDiv then Err(InvalidInvocation)
    else
      var d := (pixel.0 - centre.0, pixel.1 - centre.1);
      if nDiv == 2 || (nDiv == 4 && rotNum == 2) then Ok((centre.0 - d.0, centre.1 - d.1))
      else if nDiv == 4 && rotNum == 1 then Ok((centre.0 + d.1, centre.1 - d.0))
      else if nDiv == 4 && rotNum == 3 then Ok((centre.0 - d.1, centre.1 + d.0))
      else Err(NameError)
  }

  /** The half turn is the point reflection through the centre. */
  lemma HalfTurn(pixel: Pixel, centre: Pixel)
    ensures RotatePixelCCW(pixel, centre, 2, 1) == RotatePixelCCW(pixel, centre, 4, 2)
    ensures RotatePixelCCW(pixel, centre, 2, 1) == Ok((2 * centre.0 - pixel.0, 2 * centre.1 - pixel.1))
  {
  }

  /** A quarter turn one way then the other is the identity. */
  lemma QuarterTurn_Inverse(pixel: Pixel, centre: Pixel)
    ensures RotatePixelCCW(RotatePixelCCW(pixel, centre, 4, 1).value, centre, 4, 3) == Ok(pixel)
    ensures RotatePixelCCW(RotatePixelCCW(pixel, centre, 4, 3).value, centre, 4, 1) == Ok(pixel)
  {
  }

  /** Two quarter turns make the half turn; four make the identity. */
  lemma QuarterTurn_Twice(pixel: Pixel, centre: Pixel)
    ensures RotatePixelCCW(RotatePixelCCW(pixel, centre, 4, 1).value, centre, 4, 1) ==
            RotatePixelCCW(pixel, centre, 4, 2)
    ensures var h := RotatePixelCCW(pixel, centre, 4, 2).value;
            RotatePixelCCW(h, centre, 4, 2) == Ok(pixel)
  {
  }

  // ------------------------------------------------------------ rain decision

  datatype RainError =
    | IndexError          // a subscript outside the data array
    | NegativeDimension   // np.zeros with a negative window size

  /** `[minCol, maxCol, minRow, maxRow]` of the window given to the network. */
  datatype Bounds = Bounds(minCol: int, maxCol: int, minRow: int, maxRow: int)

  /** `data[a][b]` on the unrotated maximum-value array. */
  function At(data: seq<seq<int>>, a: int, b: int): Option<int>
  {
    match PyIndex(a, |data|)
    case None => None
    case Some(row) =>
      match PyIndex(b, |data[row]|)
      case None => None
      case Some(col) => Some(data[row][col])
  }

  /** `data[pixel[0] - yoffset][pixel[1] - xoffset]` */
  function PixelAt(data: seq<seq<int>>, xoffset: int, yoffset: int, p: Pixel): Option<int>
  {
    At(data, p.0 - yoffset, p.1 - xoffset)
  }

  /** How the pixel loop ends: an early [1, 1], an IndexError, or after the
      last pixel with whether any rain was seen and whether every rainy
      value was 1 (checkPhantom). */
  datatype Stop = HitHeavy | BadIndex | Finished(anyRain: bool, onlyOnes: bool)

  /** The pixel loop of lines 135-145 from a given running state. */
  function Sweep(data: seq<seq<int>>, xoffset: int, yoffset: int, pixels: seq<Pixel>, heavyVal: int,
                 maxSeen: int, anyRain: bool, onlyOnes: bool): Stop
    decreases |pixels|
  {
    if pixels == [] then Finished(anyRain, onlyOnes)
    else match PixelAt(data, xoffset, yoffset, pixels[0])
      case None => BadIndex
      case Some(v) =>
        var m := if v > 0 && v >= maxSeen then v else maxSeen;
        if m >= heavyVal then HitHeavy
        else Sweep(data, xoffset, yoffset, pixels[1..], heavyVal, m, anyRain || v > 0, onlyOnes && !(v > 0 && v > 1))
  }

  function SeqMax(vs: seq<int>): int
    requires vs != []
  {
    if |vs| == 1 then vs[0] else Max(SeqMax(vs[..|vs| - 1]), vs[|vs| - 1])
  }

  lemma {:induction false} SeqMax_Cons(v: int, vs: seq<int>)
    requires vs != []
    ensures SeqMax([v] + vs) == Max(v, SeqMax(vs))
    decreases |vs|
  {
    if |vs| > 1 {
      assert ([v] + vs)[..|[v] + vs| - 1] == [v] + vs[..|vs| - 1];
      SeqMax_Cons(v, vs[..|vs| - 1]);
    } else {
      assert ([v] + vs)[..1] == [v];
    }
  }

  /** When every sensitive pixel can be read, the loop returns [1, 1] exactly
      when the largest value (or the running maximum it started from)
      reaches heavyVal, and otherwise reports whether some value was
      positive and whether none exceeded 1. */
  lemma {:induction false} Sweep_Readable(data: seq<seq<int>>, xoffset: int, yoffset: int,
                                          pixels: seq<Pixel>, vs: seq<int>, heavyVal: int,
                                          maxSeen: int, anyRain: bool, onlyOnes: bool)
    requires maxSeen >= 0 && |vs| == |pixels|
    requires forall k :: 0 <= k < |pixels| ==> PixelAt(data, xoffset, yoffset, pixels[k]) == Some(vs[k])
    ensures Sweep(data, xoffset, yoffset, pixels, heavyVal, maxSeen, anyRain, onlyOnes) ==
            if pixels == [] then Finished(anyRain, onlyOnes)
            else if Max(maxSeen, SeqMax(vs)) >= heavyVal then HitHeavy
            else Finished(anyRain || SomeRain(vs), onlyOnes && OnlyOnes(vs))
    decreases |pixels|
  {
    if pixels != [] {
      var v := vs[0];
      var m := if v > 0 && v >= maxSeen then v else maxSeen;
      assert m == Max(maxSeen, v);
      assert PixelAt(data, xoffset, yoffset, pixels[0]) == Some(v);
      Values_Cons(vs);
      if m < heavyVal {
        var rest := pixels[1..];
        assert Sweep(data, xoffset, yoffset, pixels, heavyVal, maxSeen, anyRain, onlyOnes) ==
               Sweep(data, xoffset, yoffset, rest, heavyVal, m, anyRain || v > 0, onlyOnes && !(v > 0 && v > 1));
        assert forall k :: 0 <= k < |rest| ==> rest[k] == pixels[k + 1];
        Sweep_Readable(data, xoffset, yoffset, rest, vs[1..], heavyVal, m,
                       anyRain || v > 0, onlyOnes && !(v > 0 && v > 1));
      }
    }
  }

  /** Some value is positive (rain was seen). */
  predicate SomeRain(vs: seq<int>)
  {
    exists k :: 0 <= k < |vs| && vs[k] > 0
  }

  /** No value is above 1 (checkPhantom's test). */
  predicate OnlyOnes(vs: seq<int>)
  {
    forall k :: 0 <= k < |vs| ==> vs[k] <= 1
  }

  /** The first value and the rest: maximum, some positive, none above 1. */
  lemma Values_Cons(vs: seq<int>)
    requires vs != []
    ensures |vs| == 1 ==> SeqMax(vs) == vs[0]
    ensures |vs| > 1 ==> SeqMax(vs) == Max(vs[0], SeqMax(vs[1..]))
    ensures SomeRain(vs) <==> vs[0] > 0 || SomeRain(vs[1..])
    ensures OnlyOnes(vs) <==> vs[0] <= 1 && OnlyOnes(vs[1..])
  {
    var v := vs[0];
    if |vs| > 1 {
      assert vs == [v] + vs[1..];
      SeqMax_Cons(v, vs[1..]);
    }
    if SomeRain(vs) {
      var k :| 0 <= k < |vs| && vs[k] > 0;
      if k > 0 { assert vs[1..][k - 1] > 0; }
    }
    if v <= 1 && OnlyOnes(vs[1..]) {
      forall k | 0 <= k < |vs| ensures vs[k] <= 1 {
        if k > 0 { assert vs[k] == vs[1..][k - 1]; }
      }
    }
  }

  function Rows(b: Bounds): int { b.maxRow - b.minRow + 1 }
  function Cols(b: Bounds): int { b.maxCol - b.minCol + 1 }

  /** `data[minRow + r, minCol + c]` */
  function Cell(data: seq<seq<int>>, b: Bounds, r: int, c: int): Option<int>
  {
    At(data, b.minRow + r, b.minCol + c)
  }

  /** Every subscript of the window exists. */
  predicate WindowInRange(data: seq<seq<int>>, b: Bounds)
  {
    forall r, c :: 0 <= r < Rows(b) && 0 <= c < Cols(b) ==> Cell(data, b, r, c).Some?
  }

  /** The window the network sees, before its [-1, 1] scaling. */
  function Clip(data: seq<seq<int>>, b: Bounds): (r: Result<seq<seq<int>>, RainError>)
    ensures r.Ok? ==> |r.value| == Rows(b)
    ensures r.Ok? ==> forall row :: 0 <= row < Rows(b) ==> |r.value[row]| == Cols(b)
    ensures r.Ok? ==> forall row, col :: 0 <= row < Rows(b) && 0 <= col < Cols(b) ==>
              Some(r.value[row][col]) == Cell(data, b, row, col)
    ensures r.Err? <==> Rows(b) < 0 || Cols(b) < 0 || !WindowInRange(data, b)
  {
    if Rows(b) < 0 || Cols(b) < 0 then Err(NegativeDimension)
    else if !WindowInRange(data, b) then Err(IndexError)
    else Ok(seq(Rows(b), row requires 0 <= row < Rows(b) =>
              seq(Cols(b), col requires 0 <= col < Cols(b) =>
                Cell(data, b, row, col).value)))
  }

  /** The result of rainPresent for a given end of the pixel loop; `phantom`
      stands for the network's verdict (score >= 0.5) on the window. */
  function Decide(stop: Stop, data: seq<seq<int>>, b: Bounds, phantom: seq<seq<int>> -> bool)
    : Result<(int, int), RainError>
  {
    match stop
    case HitHeavy => Ok((1, 1))
    case BadIndex => Err(IndexError)
    case Finished(anyRain, onlyOnes) =>
      if !anyRain then Ok((0, 0))
      else if !onlyOnes then Ok((1, 0))
      else match Clip(data, b)
        case Err(e) => Err(e)
        case Ok(w) => if phantom(w) then Ok((0, 0)) else Ok((1, 0))
  }

  /** The heavy flag is set only together with the rain flag, and the
      network is asked only when every rainy pixel showed the lowest
      intensity. */
  lemma Decide_Flags(stop: Stop, data: seq<seq<int>>, b: Bounds, phantom: seq<seq<int>> -> bool)
    requires Decide(stop, data, b, phantom).Ok?
    ensures var r := Decide(stop, data, b, phantom).value;
            r in {(0, 0), (1, 0), (1, 1)} && (r == (1, 1) <==> stop == HitHeavy)
    ensures stop.Finished? && stop.anyRain && !stop.onlyOnes ==> Decide(stop, data, b, phantom).value == (1, 0)
  {
  }

  /** rainPresent (lines 115-169) on the unrotated data, its offsets and
      the window bounds. */
  method RainPresent(data: seq<seq<int>>, xoffset: int, yoffset: int, sensitivePixels: seq<Pixel>,
                     bounds: Bounds, heavyVal: int, phantom: seq<seq<int>> -> bool)
    returns (r: Result<(int, int), RainError>)
    ensures r == Decide(Sweep(data, xoffset, yoffset, sensitivePixels, heavyVal, 0, false, true),
                        data, bounds, phantom)
  {
    var maxSeen := 0;
    var anyRain := false;
    var checkPhantom := true;
    ghost var stop := Sweep(data, xoffset, yoffset, sensitivePixels, heavyVal, 0, false, true);
    for k := 0 to |sensitivePixels|
      invariant stop == Sweep(data, xoffset, yoffset, sensitivePixels[k..], heavyVal, maxSeen, anyRain, checkPhantom)
    {
      assert sensitivePixels[k..][1..] == sensitivePixels[k + 1..];
      var pixel := sensitivePixels[k];
      var pval := PixelAt(data, xoffset, yoffset, pixel);
      if pval.None? {
        return Err(IndexError);
      }
      if pval.value > 0 {
        anyRain := true;
        if pval.value > 1 {
          checkPhantom := false;
        }
        if pval.value >= maxSeen {
          maxSeen := pval.value;
        }
      }
      if maxSeen >= heavyVal {
        return Ok((1, 1));
      }
    }
    if !anyRain {
      return Ok((0, 0));
    }
    if !checkPhantom {
      return Ok((1, 0));
    }
    var clipped := ClipWindow(data, bounds);
    if clipped.Err? {
      return Err(clipped.error);
    }
    if phantom(clipped.value) {
      return Ok((0, 0));
    }
    return Ok((1, 0));
  }

  /** Lines 155-163: the window copied cell by cell. */
  method ClipWindow(data: seq<seq<int>>, b: Bounds) returns (r: Result<seq<seq<int>>, RainError>)
    ensures r == Clip(data, b)
  {
    var numRows, numCols := Rows(b), Cols(b);
    if numRows < 0 || numCols < 0 {
      return Err(NegativeDimension);
    }
    var clipped: seq<seq<int>> := [];
    for row := 0 to numRows
      invariant |clipped| == row
      invariant forall r, c :: 0 <= r < row && 0 <= c < numCols ==> Cell(data, b, r, c).Some?
      invariant forall r :: 0 <= r < row ==> |clipped[r]| == numCols
      invariant forall r, c :: 0 <= r < row && 0 <= c < numCols ==> Some(clipped[r][c]) == Cell(data, b, r, c)
    {
      var line: seq<int> := [];
      for col := 0 to numCols
        invariant |line| == col
        invariant forall c :: 0 <= c < col ==> Some(line[c]) == Cell(data, b, row, c)
      {
        var cell := At(data, b.minRow + row, b.minCol + col);
        assert cell == Cell(data, b, row, col);
        if cell.None? {
          return Err(IndexError);
        }
        line := line + [cell.value];
      }
      clipped := clipped + [line];
    }
    assert WindowInRange(data, b);
    var w := Clip(data, b).value;
    forall row | 0 <= row < numRows
      ensures clipped[row] == w[row]
    {
      assert forall col :: 0 <= col < numCols ==> Some(w[row][col]) == Cell(data, b, row, col);
    }
    assert clipped == w;
    r := Ok(clipped);
  }
}
