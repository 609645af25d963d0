/** make-rain-inputs.py: each radar image is compared with a baseline
    image, the pixels of a sub-rectangle are turned into rain intensity
    indices, and the result is written as a bin file. */
module RainInputs {
  import opened Util
  import opened GifData
  import BinFile

  /** The default colour codes of the intensity steps, lightest first. */
  const DefaultIntensities: seq<int> :=
    [0x99ccff, 0x0099ff, 0x00ff66, 0x00cc00, 0x009900, 0x006600, 0xffff33,
     0xffcc00, 0xff9900, 0xff6600, 0xff0000, 0xff0299, 0x9933cc, 0x660099]

  datatype ConvertError =
    | NoBaseline              // no --baseline given
    | NotGif                  // a file that did not parse
    | UnsupportedBlocks       // not exactly an Image block and a Trailer
    | IncompatibleDimensions  // screen size differs from the baseline's
    | IndexError              // a missing block or colour-table entry
    | AttributeError          // the baseline's first block is not an image
    | ZeroDivision            // a zero baseline width with pixels to scan
    | WriteFailed             // the writer refused a value outside a byte

  /** The sub-rectangle to output. */
  datatype Window = Window(xoffset: int, yoffset: int, width: int, height: int)

  /** A dimension argument: -1 stands for the baseline's size. */
  function Dimension(arg: int, default: nat): int
  {
    if arg != -1 then arg else default
  }

  /** The 24-bit code of a colour. */
  function Code(c: Colour): int
  {
    c.0 * 256 * 256 + c.1 * 256 + c.2
  }

  /** 1 + the index of the first intensity code equal to `code`, or 0. */
  function Intensity(code: int, intensities: seq<int>): (v: nat)
    ensures v <= |intensities|
    ensures v > 0 ==> intensities[v - 1] == code && code !in intensities[..v - 1]
    ensures v == 0 <==> code !in intensities
  {
    if intensities == [] then 0
    else if intensities[0] == code then 1
    else
      var r := Intensity(code, intensities[1..]);
      assert intensities == [intensities[0]] + intensities[1..];
      if r == 0 then 0
      else
        assert intensities[..r] == [intensities[0]] + intensities[1..][..r - 1];
        r + 1
  }

  /** The search loop of lines 147-151. */
  method IntensityOf(code: int, intensities: seq<int>) returns (appendval: nat)
    ensures appendval == Intensity(code, intensities)
  {
    appendval := 0;
    for i := 0 to |intensities|
      invariant code !in intensities[..i]
    {
      if code == intensities[i] {
        appendval := i + 1;
        assert intensities[..appendval - 1] == intensities[..i];
        return;
      }
      assert intensities[..i + 1] == intensities[..i] + [intensities[i]];
    }
    assert intensities[..|intensities|] == intensities;
  }

  /** Whether pixel p of the scan (row p div width, column p mod width) lies
      in the window. */
  predicate InWindow(p: nat, width: nat, w: Window)
    requires width > 0
  {
    w.yoffset <= p / width < w.yoffset + w.height && w.xoffset <= p % width < w.xoffset + w.width
  }

  /** The window's pixel indices below n, in scan order. */
  function WindowPixels(n: nat, width: nat, w: Window): (ps: seq<nat>)
    requires width > 0
    ensures forall k :: 0 <= k < |ps| ==> ps[k] < n
  {
    if n == 0 then [] else WindowPixels(n - 1, width, w) + (if InWindow(n - 1, width, w) then [n - 1] else [])
  }

  /** The window pixels are exactly the in-window indices below n, strictly
      increasing. */
  lemma {:induction false} WindowPixels_Exact(n: nat, width: nat, w: Window)
    requires width > 0
    ensures forall p: nat :: p in WindowPixels(n, width, w) <==> p < n && InWindow(p, width, w)
    ensures forall a, b :: 0 <= a < b < |WindowPixels(n, width, w)| ==>
              WindowPixels(n, width, w)[a] < WindowPixels(n, width, w)[b]
  {
    if n > 0 {
      WindowPixels_Exact(n - 1, width, w);
      var prev := WindowPixels(n - 1, width, w);
      assert forall k :: 0 <= k < |prev| ==> prev[k] < n - 1;
    }
  }

  lemma MulMono(x: int, y: int, d: nat)
    requires x <= y
    ensures x * d <= y * d
  {
  }

  lemma DivMono(a: nat, b: nat, d: nat)
    requires a <= b && d > 0
    ensures a / d <= b / d
  {
    var qa, qb := a / d, b / d;
    if qa > qb {
      MulMono(qb + 1, qa, d);
      assert false;
    }
  }

  /** Once a row at or below the window's end is reached nothing more is
      selected, which is why the scan may stop there. */
  lemma {:induction false} WindowPixels_Past(n: nat, p: nat, width: nat, w: Window)
    requires width > 0 && p <= n && p / width >= w.yoffset + w.height
    ensures WindowPixels(n, width, w) == WindowPixels(p, width, w)
  {
    if n > p {
      DivMono(p, n - 1, width);
      WindowPixels_Past(n - 1, p, width, w);
    }
  }

  /** An image as the conversion uses it: colour indices and colour table. */
  datatype Frame = Frame(pixels: seq<int>, colours: seq<Colour>)

  /** The value written for pixel p: 0 past the end of the converted image or
      where its colour equals the baseline's, else the intensity step. */
  function PixelValue(base: Frame, conv: Frame, p: nat, intensities: seq<int>): Result<int, ConvertError>
    requires p < |base.pixels|
  {
    if p >= |conv.pixels| then Ok(0)
    else match (Lookup(base.colours, base.pixels[p]), Lookup(conv.colours, conv.pixels[p]))
      case (None, _) => Err(IndexError)
      case (_, None) => Err(IndexError)
      case (Some(btuple), Some(ctuple)) =>
        if btuple == ctuple then Ok(0) else Ok(Intensity(Code(ctuple), intensities))
  }

  function Values(base: Frame, conv: Frame, ps: seq<nat>, intensities: seq<int>): Result<seq<int>, ConvertError>
    requires forall k :: 0 <= k < |ps| ==> ps[k] < |base.pixels|
  {
    if ps == [] then Ok([])
    else
      var init :- Values(base, conv, ps[..|ps| - 1], intensities);
      var v :- PixelValue(base, conv, ps[|ps| - 1], intensities);
      Ok(init + [v])
  }

  /** The first n pixels of the scan: the values of those in the window, or
      the first error. */
  function Scan(base: Frame, conv: Frame, n: nat, width: nat, w: Window, intensities: seq<int>)
    : Result<seq<int>, ConvertError>
    requires width > 0 && n <= |base.pixels|
  {
    if n == 0 then Ok([])
    else
      var init :- Scan(base, conv, n - 1, width, w, intensities);
      if InWindow(n - 1, width, w) then
        var v :- PixelValue(base, conv, n - 1, intensities);
        Ok(init + [v])
      else Ok(init)
  }

  /** The scan computes the values of the window pixels, in order. */
  lemma {:induction false} Scan_Values(base: Frame, conv: Frame, n: nat, width: nat, w: Window, intensities: seq<int>)
    requires width > 0 && n <= |base.pixels|
    ensures Scan(base, conv, n, width, w, intensities) ==
            Values(base, conv, WindowPixels(n, width, w), intensities)
  {
    if n > 0 {
      var prev := WindowPixels(n - 1, width, w);
      Scan_Values(base, conv, n - 1, width, w, intensities);
      if InWindow(n - 1, width, w) {
        assert WindowPixels(n, width, w) == prev + [n - 1];
        Values_Snoc(base, conv, prev, n - 1, intensities);
      } else {
        assert WindowPixels(n, width, w) == prev;
      }
    }
  }

  /** Once the scan fails, later pixels do not change the outcome. */
  lemma {:induction false} Scan_Stuck(base: Frame, conv: Frame, m: nat, n: nat, width: nat, w: Window, intensities: seq<int>)
    requires width > 0 && m <= n <= |base.pixels|
    requires Scan(base, conv, m, width, w, intensities).Err?
    ensures Scan(base, conv, n, width, w, intensities) == Scan(base, conv, m, width, w, intensities)
  {
    if n > m {
      Scan_Stuck(base, conv, m, n - 1, width, w, intensities);
    }
  }

  /** Past the window's last row the scan is finished. */
  lemma {:induction false} Scan_Past(base: Frame, conv: Frame, p: nat, n: nat, width: nat, w: Window, intensities: seq<int>)
    requires width > 0 && p <= n <= |base.pixels| && p / width >= w.yoffset + w.height
    ensures Scan(base, conv, n, width, w, intensities) == Scan(base, conv, p, width, w, intensities)
  {
    if n > p {
      DivMono(p, n - 1, width);
      Scan_Past(base, conv, p, n - 1, width, w, intensities);
    }
  }

  /** The output block of one file: the window's pixel values in scan order. */
  function Convert(base: Frame, conv: Frame, width: nat, w: Window, intensities: seq<int>)
    : Result<seq<int>, ConvertError>
  {
    if |base.pixels| == 0 then Ok([])
    else if width == 0 then Err(ZeroDivision)
    else Scan(base, conv, |base.pixels|, width, w, intensities)
  }

  /** Every written value is an intensity step, 0 to |intensities|, and there
      is one per window pixel. */
  lemma {:induction false} Values_Range(base: Frame, conv: Frame, ps: seq<nat>, intensities: seq<int>)
    requires forall k :: 0 <= k < |ps| ==> ps[k] < |base.pixels|
    requires Values(base, conv, ps, intensities).Ok?
    ensures var vs := Values(base, conv, ps, intensities).value;
            |vs| == |ps| && forall k :: 0 <= k < |vs| ==> 0 <= vs[k] <= |intensities|
  {
    if ps != [] {
      Values_Range(base, conv, ps[..|ps| - 1], intensities);
    }
  }

  /** Each output value is the value of the window pixel in the same place. */
  lemma {:induction false} Values_At(base: Frame, conv: Frame, ps: seq<nat>, intensities: seq<int>, k: nat)
    requires forall k :: 0 <= k < |ps| ==> ps[k] < |base.pixels|
    requires Values(base, conv, ps, intensities).Ok? && k < |ps|
    ensures Values_Len(base, conv, ps, intensities) &&
            PixelValue(base, conv, ps[k], intensities) == Ok(Values(base, conv, ps, intensities).value[k])
  {
    Values_Range(base, conv, ps, intensities);
    if k < |ps| - 1 {
      Values_At(base, conv, ps[..|ps| - 1], intensities, k);
    }
  }

  predicate Values_Len(base: Frame, conv: Frame, ps: seq<nat>, intensities: seq<int>)
    requires forall k :: 0 <= k < |ps| ==> ps[k] < |base.pixels|
  {
    Values(base, conv, ps, intensities).Ok? ==> |Values(base, conv, ps, intensities).value| == |ps|
  }

  lemma Values_Snoc(base: Frame, conv: Frame, ps: seq<nat>, p: nat, intensities: seq<int>)
    requires forall k :: 0 <= k < |ps| ==> ps[k] < |base.pixels|
    requires p < |base.pixels|
    ensures var init, v := Values(base, conv, ps, intensities), PixelValue(base, conv, p, intensities);
            && (init.Err? ==> Values(base, conv, ps + [p], intensities) == Err(init.error))
            && (init.Ok? && v.Err? ==> Values(base, conv, ps + [p], intensities) == Err(v.error))
            && (init.Ok? && v.Ok? ==> Values(base, conv, ps + [p], intensities) == Ok(init.value + [v.value]))
  {
    assert (ps + [p])[..|ps|] == ps;
  }

  /** Lines 133-151: the value of one window pixel. */
  method ValueOf(base: Frame, conv: Frame, pixel: nat, intensities: seq<int>) returns (r: Result<int, ConvertError>)
    requires pixel < |base.pixels|
    ensures r == PixelValue(base, conv, pixel, intensities)
  {
    var appendval := 0;
    if pixel < |conv.pixels| {
      var btuple := Lookup(base.colours, base.pixels[pixel]);
      var ctuple := Lookup(conv.colours, conv.pixels[pixel]);
      if btuple.None? || ctuple.None? {
        return Err(IndexError);
      }
      if btuple.value != ctuple.value {
        var code := ctuple.value.0 * 256 * 256 + ctuple.value.1 * 256 + ctuple.value.2;
        appendval := IntensityOf(code, intensities);
      }
    }
    r := Ok(appendval);
  }

  /** The pixel loop of lines 118-153 for one file, with totalRain. */
  method ConvertPixels(base: Frame, conv: Frame, width: nat, w: Window, intensities: seq<int>)
    returns (r: Result<(seq<int>, int), ConvertError>)
    ensures r.Ok? <==> Convert(base, conv, width, w, intensities).Ok?
    ensures r.Ok? ==> r.value.0 == Convert(base, conv, width, w, intensities).value
    ensures r.Ok? ==> r.value.1 == Sum(r.value.0)
    ensures r.Err? ==> r.error == Convert(base, conv, width, w, intensities).error
  {
    var outputBlock: seq<int> := [];
    var totalRain := 0;
    if |base.pixels| > 0 && width == 0 {
      return Err(ZeroDivision);
    }
    if |base.pixels| == 0 {
      return Ok(([], 0));
    }
    var pixel := 0;
    while pixel < |base.pixels|
      invariant 0 <= pixel <= |base.pixels|
      invariant Scan(base, conv, pixel, width, w, intensities) == Ok(outputBlock)
      invariant totalRain == Sum(outputBlock)
    {
      var row := pixel / width;
      var col := pixel % width;
      if row < w.yoffset {
        pixel := pixel + 1;
        continue;
      }
      if row >= w.yoffset + w.height {
        Scan_Past(base, conv, pixel, |base.pixels|, width, w, intensities);
        break;
      }
      if col < w.xoffset || col >= w.xoffset + w.width {
        pixel := pixel + 1;
        continue;
      }
      var value := ValueOf(base, conv, pixel, intensities);
      if value.Err? {
        Scan_Stuck(base, conv, pixel + 1, |base.pixels|, width, w, intensities);
        return Err(value.error);
      }
      var appendval := value.value;
      SumAppend(outputBlock, appendval);
      outputBlock := outputBlock + [appendval];
      totalRain := totalRain + appendval;
      pixel := pixel + 1;
    }
    return Ok((outputBlock, totalRain));
  }

  /** Lines 52-70: the baseline must be named, parse, and start with an image. */
  function BaselineFrame(baseline: Option<Gif>): Result<Frame, ConvertError>
  {
    if baseline.None? then Err(NoBaseline)
    else if !baseline.value.complete then Err(NotGif)
    else if baseline.value.blocks == [] then Err(IndexError)
    else if !baseline.value.blocks[0].Image? then Err(AttributeError)
    else Ok(Frame(baseline.value.blocks[0].pixels, baseline.value.colours))
  }

  /** The run-wide settings of lines 72-81. */
  datatype Settings = Settings(window: Window, intensities: seq<int>)

  function MakeSettings(base: Gif, owidth: int, oheight: int, offsetx: int, offsety: int,
                        intensities: seq<int>): (s: Settings)
    ensures owidth == -1 ==> s.window.width == base.width
    ensures oheight == -1 ==> s.window.height == base.height
    ensures owidth != -1 ==> s.window.width == owidth
    ensures oheight != -1 ==> s.window.height == oheight
  {
    Settings(Window(offsetx, offsety, Dimension(owidth, base.width), Dimension(oheight, base.height)),
             intensities)
  }

  /** Lines 84-159 for one input file: checks, conversion, then the write. */
  function FileOutput(compress: seq<byte> -> seq<byte>, base: Gif, bframe: Frame, g: Gif, s: Settings)
    : Result<BinFile.Written, ConvertError>
  {
    if !g.complete then Err(NotGif)
    else if |g.blocks| != 2 || !g.blocks[0].Image? || !g.blocks[1].Trailer? then Err(UnsupportedBlocks)
    else if base.width != g.width || base.height != g.height then Err(IncompatibleDimensions)
    else
      var out :- Convert(bframe, Frame(g.blocks[0].pixels, g.colours), base.width, s.window, s.intensities);
      Ok(BinFile.Write(compress, s.window.width, s.window.height, s.window.xoffset, s.window.yoffset,
                       Sum(out), out))
  }

  /** Lines 84-159 for one input file. */
  method ConvertFile(compress: seq<byte> -> seq<byte>, base: Gif, bframe: Frame, g: Gif, s: Settings)
    returns (r: Result<BinFile.Written, ConvertError>)
    ensures r == FileOutput(compress, base, bframe, g, s)
  {
    if !g.complete {
      return Err(NotGif);
    }
    if |g.blocks| != 2 || !g.blocks[0].Image? || !g.blocks[1].Trailer? {
      return Err(UnsupportedBlocks);
    }
    if base.width != g.width || base.height != g.height {
      return Err(IncompatibleDimensions);
    }
    var converted := ConvertPixels(bframe, Frame(g.blocks[0].pixels, g.colours), base.width,
                                   s.window, s.intensities);
    if converted.Err? {
      return Err(converted.error);
    }
    var (outputBlock, totalRain) := converted.value;
    r := Ok(BinFile.Write(compress, s.window.width, s.window.height, s.window.xoffset, s.window.yoffset,
                          totalRain, outputBlock));
  }

  /** The outcome of each file taken alone. */
  function Outputs(compress: seq<byte> -> seq<byte>, base: Gif, bframe: Frame, files: seq<Gif>, s: Settings)
    : (outs: seq<Result<BinFile.Written, ConvertError>>)
    ensures |outs| == |files|
    ensures forall k :: 0 <= k < |files| ==> outs[k] == FileOutput(compress, base, bframe, files[k], s)
  {
    if files == [] then []
    else [FileOutput(compress, base, bframe, files[0], s)] + Outputs(compress, base, bframe, files[1..], s)
  }

  /** The bin files written, in order, and the error that stopped the run
      (exit status 1), None when every file was converted. A refused write
      has already produced its partial file. */
  function Run(outs: seq<Result<BinFile.Written, ConvertError>>): (seq<BinFile.Written>, Option<ConvertError>)
  {
    if outs == [] then ([], None)
    else match outs[0]
      case Err(e) => ([], Some(e))
      case Ok(w) =>
        if w.error.Some? then ([w], Some(WriteFailed))
        else
          var (ws, e) := Run(outs[1..]);
          ([w] + ws, e)
  }

  /** Every file handled before the stop was written as its own outcome
      says; the run stops at the first failing file or refused write, and
      finishes every file otherwise. */
  lemma {:induction false} Run_Outcome(outs: seq<Result<BinFile.Written, ConvertError>>)
    ensures var (written, err) := Run(outs);
            |written| <= |outs| &&
            (forall k :: 0 <= k < |written| ==> outs[k] == Ok(written[k])) &&
            (forall k :: 0 <= k < |written| - 1 ==> written[k].error.None?) &&
            (err.None? ==> |written| == |outs| && forall k :: 0 <= k < |written| ==> written[k].error.None?) &&
            (err.Some? ==>
              (|written| > 0 && written[|written| - 1].error.Some? && err.value == WriteFailed) ||
              (|written| < |outs| && (forall k :: 0 <= k < |written| ==> written[k].error.None?) &&
               outs[|written|] == Err(err.value)))
  {
    if outs != [] && outs[0].Ok? && outs[0].value.error.None? {
      Run_Outcome(outs[1..]);
    }
  }

  /** One more file handled: the run so far, `written`, followed by the
      run from file k on, is the run from file 0, and file k's outcome
      decides how the run goes on. */
  lemma Run_Step(outs: seq<Result<BinFile.Written, ConvertError>>, k: nat, written: seq<BinFile.Written>)
    requires k < |outs|
    requires Run(outs) == (written + Run(outs[k..]).0, Run(outs[k..]).1)
    ensures outs[k].Err? ==> Run(outs) == (written, Some(outs[k].error))
    ensures outs[k].Ok? && outs[k].value.error.Some? ==> Run(outs) == (written + [outs[k].value], Some(WriteFailed))
    ensures outs[k].Ok? && outs[k].value.error.None? ==>
              Run(outs) == (written + [outs[k].value] + Run(outs[k + 1..]).0, Run(outs[k + 1..]).1)
  {
    Run_At(outs, k);
    if outs[k].Err? {
      assert written + [] == written;
    } else if outs[k].value.error.None? {
      var w := outs[k].value;
      assert written + ([w] + Run(outs[k + 1..]).0) == written + [w] + Run(outs[k + 1..]).0;
    }
  }

  /** Run on the outcomes from file k on, by the outcome of file k. */
  lemma Run_At(outs: seq<Result<BinFile.Written, ConvertError>>, k: nat)
    requires k < |outs|
    ensures outs[k].Err? ==> Run(outs[k..]) == ([], Some(outs[k].error))
    ensures outs[k].Ok? && outs[k].value.error.Some? ==> Run(outs[k..]) == ([outs[k].value], Some(WriteFailed))
    ensures outs[k].Ok? && outs[k].value.error.None? ==>
              Run(outs[k..]) == ([outs[k].value] + Run(outs[k + 1..]).0, Run(outs[k + 1..]).1)
  {
    assert outs[k..][0] == outs[k] && outs[k..][1..] == outs[k + 1..];
  }

  /** The whole script (lines 52-159). */
  function MakeRainInputsSpec(compress: seq<byte> -> seq<byte>, baseline: Option<Gif>, files: seq<Gif>,
                              owidth: int, oheight: int, offsetx: int, offsety: int, intensities: seq<int>)
    : (seq<BinFile.Written>, Option<ConvertError>)
  {
    match BaselineFrame(baseline)
    case Err(e) => ([], Some(e))
    case Ok(bframe) =>
      Run(Outputs(compress, baseline.value, bframe, files,
                  MakeSettings(baseline.value, owidth, oheight, offsetx, offsety, intensities)))
  }

  /** The script: one bin file per input, in order, until the first failure. */
  method MakeRainInputs(compress: seq<byte> -> seq<byte>, baseline: Option<Gif>, files: seq<Gif>,
                        owidth: int, oheight: int, offsetx: int, offsety: int, intensities: seq<int>)
    returns (written: seq<BinFile.Written>, err: Option<ConvertError>)
    ensures (written, err) == MakeRainInputsSpec(compress, baseline, files, owidth, oheight, offsetx, offsety, intensities)
  {
    written := [];
    var bf := BaselineFrame(baseline);
    if bf.Err? {
      return [], Some(bf.error);
    }
    var base := baseline.value;
    var s := MakeSettings(base, owidth, oheight, offsetx, offsety, intensities);
    ghost var outs := Outputs(compress, base, bf.value, files, s);
    assert outs[0..] == outs;
    assert written + Run(outs).0 == Run(outs).0;
    for k := 0 to |files|
      invariant Run(outs) == (written + Run(outs[k..]).0, Run(outs[k..]).1)
    {
      Run_Step(outs, k, written);
      var out := ConvertFile(compress, base, bf.value, files[k], s);
      assert out == outs[k];
      if out.Err? {
        return written, Some(out.error);
      }
      var w := out.value;
      if w.error.Some? {
        return written + [w], Some(WriteFailed);
      }
      written := written + [w];
    }
    assert written + [] == written;
    err := None;
  }
}
