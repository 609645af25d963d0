/** find-baseline.py: three decoded GIFs of one scene are combined pixel by
    pixel into a baseline image by a majority vote on colours. */
module Baseline {
  import opened Util
  import opened GifData

  datatype BaselineError =
    | NotGif(file: nat)              // incomplete or without a screen descriptor
    | ScreenSizesDiffer
    | UnsupportedLayout(file: nat)   // not [Image, Trailer] nor [GCE, Image, Trailer]
    | IndexError                     // a pixel's index is outside its colour table
    | TypeError                      // the fallback search of find_index_of_tuple

  // ------------------------------------------------------ find_index_of_tuple

  /** Lines 33-39. When `table[hint]` is not the needle the fallback loop
      subscripts the table with its own first element, a tuple, which is a
      TypeError; so only the hint can ever be returned. */
  function FindIndexOfTuple(table: seq<Colour>, needle: Colour, hint: int): (r: Result<int, BaselineError>)
    ensures r.Ok? <==> Lookup(table, hint) == Some(needle)
    ensures r.Ok? ==> r.value == hint
    ensures r == Err(IndexError) <==> Lookup(table, hint).None?
  {
    match PyIndex(hint, |table|)
    case None => Err(IndexError)
    case Some(k) => if table[k] == needle then Ok(hint) else Err(TypeError)
  }

  // ------------------------------------------------------------- layouts

  /** Lines 85-102: where the image block sits in an accepted block list. */
  function LayoutOffset(blocks: seq<Block>): (r: Option<nat>)
    ensures r == Some(0) <==> |blocks| == 2 && blocks[0].Image? && blocks[1] == Trailer
    ensures r == Some(1) <==> |blocks| == 3 && blocks[0].GraphicControl? && blocks[1].Image? && blocks[2] == Trailer
    ensures r.Some? ==> r.value < |blocks| && blocks[r.value].Image? && r.value <= 1
  {
    if |blocks| == 2 && blocks[0].Image? && blocks[1].Trailer? then Some(0)
    else if |blocks| == 3 && blocks[0].GraphicControl? && blocks[1].Image? && blocks[2].Trailer? then Some(1)
    else None
  }

  /** The offsets of files i.. , or the first file with another layout. */
  function Offsets(gifs: seq<Gif>, i: nat): (r: Result<seq<nat>, BaselineError>)
    requires i <= |gifs|
    ensures r.Ok? ==> |r.value| == |gifs| - i &&
                      forall k :: 0 <= k < |r.value| ==> LayoutOffset(gifs[i + k].blocks) == Some(r.value[k])
    decreases |gifs| - i
  {
    if i == |gifs| then Ok([])
    else match LayoutOffset(gifs[i].blocks)
      case None => Err(UnsupportedLayout(i))
      case Some(off) =>
        var rest :- Offsets(gifs, i + 1);
        Ok([off] + rest)
  }

  /** The offsets fail exactly at the first file whose layout is refused. */
  lemma {:induction false} Offsets_Err(gifs: seq<Gif>, i: nat, j: nat)
    requires i <= j < |gifs|
    requires LayoutOffset(gifs[j].blocks).None?
    requires forall k :: i <= k < j ==> LayoutOffset(gifs[k].blocks).Some?
    ensures Offsets(gifs, i) == Err(UnsupportedLayout(j))
    decreases j - i
  {
    if i < j {
      Offsets_Err(gifs, i + 1, j);
    }
  }

  /** Lines 81-114. */
  method ImageOffsets(gifs: seq<Gif>) returns (r: Result<seq<nat>, BaselineError>)
    ensures r == Offsets(gifs, 0)
  {
    var imgoffsets: seq<nat> := [];
    for i := 0 to |gifs|
      invariant |imgoffsets| == i
      invariant forall k :: 0 <= k < i ==> LayoutOffset(gifs[k].blocks) == Some(imgoffsets[k])
    {
      var off := LayoutOffset(gifs[i].blocks);
      if off.None? {
        Offsets_Err(gifs, 0, i);
        return Err(UnsupportedLayout(i));
      }
      imgoffsets := imgoffsets + [off.value];
    }
    OffsetsOk(gifs, 0, imgoffsets);
    r := Ok(imgoffsets);
  }

  lemma {:induction false} OffsetsOk(gifs: seq<Gif>, i: nat, offs: seq<nat>)
    requires i <= |gifs| && |offs| == |gifs|
    requires forall k :: 0 <= k < |gifs| ==> LayoutOffset(gifs[k].blocks) == Some(offs[k])
    ensures Offsets(gifs, i) == Ok(offs[i..])
    decreases |gifs| - i
  {
    if i < |gifs| {
      OffsetsOk(gifs, i + 1, offs);
      assert offs[i..] == [offs[i]] + offs[i + 1..];
    }
  }

  // ------------------------------------------------------------- voting

  /** One input to the vote: a colour table and the image's pixel indices. */
  datatype Input = Input(table: seq<Colour>, pixels: seq<int>)

  /** The colour of pixel k of an input. */
  function ColourAt(x: Input, k: nat): Option<Colour>
    requires k < |x.pixels|
  {
    Lookup(x.table, x.pixels[k])
  }

  /** The number of pixels `zip` walks: the shortest of the three images. */
  function Zipped(a: Input, b: Input, c: Input): (n: nat)
    ensures n <= |a.pixels| && n <= |b.pixels| && n <= |c.pixels|
    ensures n == |a.pixels| || n == |b.pixels| || n == |c.pixels|
  {
    Min(|a.pixels|, Min(|b.pixels|, |c.pixels|))
  }

  /** Two of the three colours agree at pixel k. */
  predicate HasMajority(a: Input, b: Input, c: Input, k: nat)
    requires k < Zipped(a, b, c)
  {
    var t0, t1, t2 := ColourAt(a, k), ColourAt(b, k), ColourAt(c, k);
    t0 == t1 || t0 == t2 || t1 == t2
  }

  /** Lines 136-153 for pixel k: Some(index) to append, None when the three
      colours all differ. An appended index shows, through the first table,
      a colour at least two of the inputs have at that pixel. */
  function PixelVote(a: Input, b: Input, c: Input, k: nat): (r: Result<Option<int>, BaselineError>)
    requires k < Zipped(a, b, c)
    ensures r.Ok? <==> ColourAt(a, k).Some? && ColourAt(b, k).Some? && ColourAt(c, k).Some? &&
                       (!HasMajority(a, b, c, k) || ColourAt(a, k) == ColourAt(b, k) ||
                        ColourAt(a, k) == ColourAt(c, k) || Lookup(a.table, b.pixels[k]) == ColourAt(b, k))
    ensures r.Ok? ==> (r.value.None? <==> !HasMajority(a, b, c, k))
    ensures r.Ok? && r.value.Some? ==>
              var col := Lookup(a.table, r.value.value);
              col.Some? &&
              ((col == ColourAt(a, k) && (col == ColourAt(b, k) || col == ColourAt(c, k))) ||
               (col == ColourAt(b, k) && col == ColourAt(c, k)))
  {
    match (ColourAt(a, k), ColourAt(b, k), ColourAt(c, k))
    case (Some(tup0), Some(tup1), Some(tup2)) =>
      if tup0 == tup1 || tup0 == tup2 then Ok(Some(a.pixels[k]))
      else if tup1 == tup2 then
        var newind :- FindIndexOfTuple(a.table, tup1, b.pixels[k]);
        Ok(Some(newind))
      else Ok(None)
    case _ => Err(IndexError)
  }

  /** The vote over pixels 0 .. n-1: the indices appended, in pixel order. */
  function Votes(a: Input, b: Input, c: Input, n: nat): Result<seq<int>, BaselineError>
    requires n <= Zipped(a, b, c)
  {
    if n == 0 then Ok([])
    else
      var init :- Votes(a, b, c, n - 1);
      var v :- PixelVote(a, b, c, n - 1);
      Ok(if v.Some? then init + [v.value] else init)
  }

  /** The pixels 0 .. n-1 that have a majority. */
  function Winners(a: Input, b: Input, c: Input, n: nat): (w: seq<nat>)
    requires n <= Zipped(a, b, c)
    ensures forall j :: 0 <= j < |w| ==> w[j] < n
  {
    if n == 0 then []
    else
      var init := Winners(a, b, c, n - 1);
      if HasMajority(a, b, c, n - 1) then init + [n - 1] else init
  }

  /** The vote succeeds iff every pixel's vote does; then it appends one
      index per pixel with a majority, in pixel order, and each index shows,
      through the first table, the colour that won at its pixel. */
  lemma {:induction false} Votes_Majority(a: Input, b: Input, c: Input, n: nat)
    requires n <= Zipped(a, b, c)
    ensures Votes(a, b, c, n).Ok? <==> forall k :: 0 <= k < n ==> PixelVote(a, b, c, k).Ok?
    ensures Votes(a, b, c, n).Ok? ==>
              var out, w := Votes(a, b, c, n).value, Winners(a, b, c, n);
              |out| == |w| &&
              (forall j :: 0 <= j < |w| ==> HasMajority(a, b, c, w[j])) &&
              (forall j :: 0 <= j < |w| ==> PixelVote(a, b, c, w[j]) == Ok(Some(out[j])))
  {
    Votes_Ok(a, b, c, n);
    Votes_Winners(a, b, c, n);
  }

  lemma {:induction false} Votes_Ok(a: Input, b: Input, c: Input, n: nat)
    requires n <= Zipped(a, b, c)
    ensures Votes(a, b, c, n).Ok? <==> forall k :: 0 <= k < n ==> PixelVote(a, b, c, k).Ok?
  {
    if n > 0 {
      Votes_Ok(a, b, c, n - 1);
    }
  }

  lemma {:induction false} Votes_Winners(a: Input, b: Input, c: Input, n: nat)
    requires n <= Zipped(a, b, c)
    ensures Votes(a, b, c, n).Ok? ==>
              var out, w := Votes(a, b, c, n).value, Winners(a, b, c, n);
              |out| == |w| &&
              (forall j :: 0 <= j < |w| ==> HasMajority(a, b, c, w[j])) &&
              (forall j :: 0 <= j < |w| ==> PixelVote(a, b, c, w[j]) == Ok(Some(out[j])))
  {
    if n > 0 && Votes(a, b, c, n).Ok? {
      Votes_Winners(a, b, c, n - 1);
      var out', w' := Votes(a, b, c, n - 1).value, Winners(a, b, c, n - 1);
      var v := PixelVote(a, b, c, n - 1).value;
      if v.Some? {
        assert Votes(a, b, c, n).value == out' + [v.value];
        assert Winners(a, b, c, n) == w' + [n - 1];
      } else {
        assert Votes(a, b, c, n).value == out';
        assert Winners(a, b, c, n) == w';
      }
    }
  }

  /** Every pixel without a majority is left out of the output. */
  lemma {:induction false} Winners_Exact(a: Input, b: Input, c: Input, n: nat, k: nat)
    requires n <= Zipped(a, b, c)
    ensures k in Winners(a, b, c, n) <==> k < n && HasMajority(a, b, c, k)
  {
    if n > 0 {
      Winners_Exact(a, b, c, n - 1, k);
    }
  }

  lemma {:induction false} VotesStuck(a: Input, b: Input, c: Input, n: nat, n': nat)
    requires n <= n' <= Zipped(a, b, c) && Votes(a, b, c, n).Err?
    ensures Votes(a, b, c, n') == Votes(a, b, c, n)
    decreases n' - n
  {
    if n' > n {
      VotesStuck(a, b, c, n, n' - 1);
    }
  }

  /** Lines 133-153. */
  method Vote(a: Input, b: Input, c: Input) returns (r: Result<seq<int>, BaselineError>)
    ensures r == Votes(a, b, c, Zipped(a, b, c))
  {
    var n := Min(|a.pixels|, Min(|b.pixels|, |c.pixels|));
    var outputPixelBlock: seq<int> := [];
    for k := 0 to n
      invariant Votes(a, b, c, k) == Ok(outputPixelBlock)
    {
      var tup0, tup1, tup2 := Lookup(a.table, a.pixels[k]), Lookup(b.table, b.pixels[k]), Lookup(c.table, c.pixels[k]);
      if tup0.None? || tup1.None? || tup2.None? {
        VotesStuck(a, b, c, k + 1, n);
        return Err(IndexError);
      }
      if tup0 == tup1 || tup0 == tup2 {
        outputPixelBlock := outputPixelBlock + [a.pixels[k]];
      } else if tup1 == tup2 {
        var newind := FindIndexOfTuple(a.table, tup1.value, b.pixels[k]);
        if newind.Err? {
          VotesStuck(a, b, c, k + 1, n);
          return Err(newind.error);
        }
        outputPixelBlock := outputPixelBlock + [newind.value];
      }
    }
    r := Ok(outputPixelBlock);
  }

  // ------------------------------------------------------------- the script

  /** What the output GIF holds: the first input's screen size and colour
      table, written at depth 8, and the voted pixels. */
  datatype Output = Output(width: nat, height: nat, colourDepth: nat, colours: seq<Colour>, pixels: seq<int>)

  function FirstIncomplete(gifs: seq<Gif>, i: nat): (r: Option<nat>)
    requires i <= |gifs|
    ensures r.Some? ==> i <= r.value < |gifs| && !gifs[r.value].complete &&
                        forall k :: i <= k < r.value ==> gifs[k].complete
    ensures r.None? ==> forall k :: i <= k < |gifs| ==> gifs[k].complete
    decreases |gifs| - i
  {
    if i == |gifs| then None
    else if !gifs[i].complete then Some(i)
    else FirstIncomplete(gifs, i + 1)
  }

  function ImageInput(g: Gif, off: nat): Input
  {
    Input(g.colours, if off < |g.blocks| && g.blocks[off].Image? then g.blocks[off].pixels else [])
  }

  /** Lines 49-160 for the three decoded inputs. */
  function FindBaselineSpec(g0: Gif, g1: Gif, g2: Gif): Result<Output, BaselineError>
  {
    match FirstIncomplete([g0, g1, g2], 0)
    case Some(i) => Err(NotGif(i))
    case None =>
      if g0.width != g1.width || g1.width != g2.width || g0.height != g1.height || g1.height != g2.height then
        Err(ScreenSizesDiffer)
      else
        var offs :- Offsets([g0, g1, g2], 0);
        var pixels :- Votes(ImageInput(g0, offs[0]), ImageInput(g1, offs[1]), ImageInput(g2, offs[2]),
                            Zipped(ImageInput(g0, offs[0]), ImageInput(g1, offs[1]), ImageInput(g2, offs[2])));
        Ok(Output(g0.width, g0.height, 8, g0.colours, pixels))
  }

  /** A successful run had three complete inputs of one screen size, each
      with an accepted layout, and writes the first input's screen and
      table. */
  lemma FindBaseline_Ok(g0: Gif, g1: Gif, g2: Gif)
    requires FindBaselineSpec(g0, g1, g2).Ok?
    ensures g0.complete && g1.complete && g2.complete
    ensures g0.width == g1.width == g2.width && g0.height == g1.height == g2.height
    ensures LayoutOffset(g0.blocks).Some? && LayoutOffset(g1.blocks).Some? && LayoutOffset(g2.blocks).Some?
    ensures var out := FindBaselineSpec(g0, g1, g2).value;
            out.width == g0.width && out.height == g0.height && out.colours == g0.colours
  {
    var gifs := [g0, g1, g2];
    assert FirstIncomplete(gifs, 0).None?;
    assert gifs[0] == g0 && gifs[1] == g1 && gifs[2] == g2;
    var offs := Offsets(gifs, 0);
    assert offs.Ok?;
    assert LayoutOffset(gifs[0].blocks).Some? && LayoutOffset(gifs[1].blocks).Some? && LayoutOffset(gifs[2].blocks).Some?;
  }

  method FindBaseline(g0: Gif, g1: Gif, g2: Gif) returns (r: Result<Output, BaselineError>)
    ensures r == FindBaselineSpec(g0, g1, g2)
  {
    var gifs := [g0, g1, g2];
    for i := 0 to 3
      invariant FirstIncomplete(gifs, 0) == FirstIncomplete(gifs, i)
    {
      if !gifs[i].complete {
        return Err(NotGif(i));
      }
    }
    if g0.width != g1.width || g1.width != g2.width || g0.height != g1.height || g1.height != g2.height {
      return Err(ScreenSizesDiffer);
    }
    var imgoffsets := ImageOffsets(gifs);
    if imgoffsets.Err? {
      return Err(imgoffsets.error);
    }
    var offs := imgoffsets.value;
    var a, b, c := ImageInput(g0, offs[0]), ImageInput(g1, offs[1]), ImageInput(g2, offs[2]);
    var pixels := Vote(a, b, c);
    if pixels.Err? {
      return Err(pixels.error);
    }
    r := Ok(Output(g0.width, g0.height, 8, g0.colours, pixels.value));
  }
}
