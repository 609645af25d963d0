/** sum-overlays.py: the optional overlays of a radar archive are combined
    into one mask that is 1 (white) where rain is visible through every
    overlay and 0 (black) where some overlay hides it. */
module Overlays {
  import opened Util
  import opened GifData

  datatype OverlayError =
    | NoOverlays            // argparse's nargs='+'
    | NoTransparentColour   // no graphic control extension, or colour 0
    | NoPixels              // no image block, or an empty one
    | IndexError            // a later overlay hides a pixel beyond the block

  // ------------------------------------------------------------- one overlay

  /** The transparent colour of the last graphic control extension. */
  function LastTransparent(blocks: seq<Block>): (r: Option<int>)
    ensures r.None? <==> forall k :: 0 <= k < |blocks| ==> !blocks[k].GraphicControl?
  {
    if blocks == [] then None
    else if blocks[|blocks| - 1].GraphicControl? then Some(blocks[|blocks| - 1].transparentColour)
    else
      var r := LastTransparent(blocks[..|blocks| - 1]);
      assert forall k :: 0 <= k < |blocks| - 1 ==> blocks[..|blocks| - 1][k] == blocks[k];
      r
  }

  /** The pixels of the last image block. */
  function LastPixels(blocks: seq<Block>): (r: Option<seq<int>>)
    ensures r.None? <==> forall k :: 0 <= k < |blocks| ==> !blocks[k].Image?
  {
    if blocks == [] then None
    else if blocks[|blocks| - 1].Image? then Some(blocks[|blocks| - 1].pixels)
    else
      var r := LastPixels(blocks[..|blocks| - 1]);
      assert forall k :: 0 <= k < |blocks| - 1 ==> blocks[..|blocks| - 1][k] == blocks[k];
      r
  }

  /** The colour found is that of a graphic control extension with none
      after it. */
  lemma {:induction false} LastTransparent_Last(blocks: seq<Block>)
    requires LastTransparent(blocks).Some?
    ensures exists k :: 0 <= k < |blocks| && blocks[k] == GraphicControl(LastTransparent(blocks).value) &&
                        forall q :: k < q < |blocks| ==> !blocks[q].GraphicControl?
  {
    var last := |blocks| - 1;
    if blocks[last].GraphicControl? {
      assert blocks[last] == GraphicControl(LastTransparent(blocks).value);
    } else {
      var init := blocks[..last];
      assert LastTransparent(blocks) == LastTransparent(init);
      LastTransparent_Last(init);
      var k :| 0 <= k < |init| && init[k] == GraphicControl(LastTransparent(init).value) &&
               forall q :: k < q < |init| ==> !init[q].GraphicControl?;
      assert blocks[k] == init[k];
      forall q | k < q < |blocks| ensures !blocks[q].GraphicControl? {
        if q < last { assert blocks[q] == init[q]; }
      }
    }
  }

  /** The pixels found are those of an image block with no image after it. */
  lemma {:induction false} LastPixels_Last(blocks: seq<Block>)
    requires LastPixels(blocks).Some?
    ensures exists k :: 0 <= k < |blocks| && blocks[k].Image? && blocks[k].pixels == LastPixels(blocks).value &&
                        forall q :: k < q < |blocks| ==> !blocks[q].Image?
  {
    var last := |blocks| - 1;
    if !blocks[last].Image? {
      var init := blocks[..last];
      assert LastPixels(blocks) == LastPixels(init);
      LastPixels_Last(init);
      var k :| 0 <= k < |init| && init[k].Image? && init[k].pixels == LastPixels(init).value &&
               forall q :: k < q < |init| ==> !init[q].Image?;
      assert blocks[k] == init[k];
      forall q | k < q < |blocks| ensures !blocks[q].Image? {
        if q < last { assert blocks[q] == init[q]; }
      }
    }
  }

  /** Lines 48-53. */
  method ScanBlocks(blocks: seq<Block>) returns (transparentColour: Option<int>, gifdata: Option<seq<int>>)
    ensures transparentColour == LastTransparent(blocks)
    ensures gifdata == LastPixels(blocks)
  {
    transparentColour, gifdata := None, None;
    for k := 0 to |blocks|
      invariant transparentColour == LastTransparent(blocks[..k])
      invariant gifdata == LastPixels(blocks[..k])
    {
      assert blocks[..k + 1][..k] == blocks[..k];
      if blocks[k].GraphicControl? {
        transparentColour := Some(blocks[k].transparentColour);
      }
      if blocks[k].Image? {
        gifdata := Some(blocks[k].pixels);
      }
    }
    assert blocks[..|blocks|] == blocks;
  }

  /** Lines 48-61: an overlay's transparent colour and pixels, or why it is
      refused; a transparent colour of 0 is refused as Python finds it false. */
  function OverlayData(g: Gif): (r: Result<(int, seq<int>), OverlayError>)
    ensures r.Ok? ==> r.value.0 != 0 && |r.value.1| > 0
    ensures r.Ok? ==> Some(r.value.0) == LastTransparent(g.blocks) && Some(r.value.1) == LastPixels(g.blocks)
  {
    match LastTransparent(g.blocks)
    case None => Err(NoTransparentColour)
    case Some(t) =>
      if t == 0 then Err(NoTransparentColour)
      else match LastPixels(g.blocks)
        case None => Err(NoPixels)
        case Some(px) => if px == [] then Err(NoPixels) else Ok((t, px))
  }

  /** The overlay does not hide pixel i: it is transparent there or does
      not reach it. */
  predicate Clear(g: Gif, i: nat)
  {
    OverlayData(g).Ok? ==> i >= |OverlayData(g).value.1| || OverlayData(g).value.1[i] == OverlayData(g).value.0
  }

  /** No overlay hides pixel i. */
  predicate AllClear(ovs: seq<Gif>, i: nat)
  {
    forall k :: 0 <= k < |ovs| ==> Clear(ovs[k], i)
  }

  // ------------------------------------------------------------ accumulation

  /** The output block after lines 68-70 have run for i < n. */
  function MaskedUpTo(block: seq<int>, px: seq<int>, t: int, n: nat): (m: seq<int>)
    ensures |m| == |block|
  {
    seq(|block|, q requires 0 <= q < |block| => if q < n && q < |px| && px[q] != t then 0 else block[q])
  }

  /** Every pixel from n on is transparent, so lines 68-70 write no index
      from n on. */
  predicate Fits(px: seq<int>, t: int, n: nat)
  {
    forall i :: n <= i < |px| ==> px[i] == t
  }

  /** Lines 63-70 for one overlay: size the block on the first one, then
      clear every pixel the overlay hides; a hidden pixel beyond the block
      is an index error. */
  function Step(block: seq<int>, px: seq<int>, t: int): Result<seq<int>, OverlayError>
  {
    var b := if |block| == 0 then seq(|px|, _ => 1) else block;
    if !Fits(px, t, |b|) then Err(IndexError) else Ok(MaskedUpTo(b, px, t, |px|))
  }

  /** The overlays from j on, applied to the block in order. */
  function Combine(ovs: seq<Gif>, j: nat, block: seq<int>): Result<seq<int>, OverlayError>
    requires j <= |ovs|
    decreases |ovs| - j
  {
    if j == |ovs| then Ok(block)
    else
      var (t, px) :- OverlayData(ovs[j]);
      var b :- Step(block, px, t);
      Combine(ovs, j + 1, b)
  }

  predicate IsMask(block: seq<int>)
  {
    forall i :: 0 <= i < |block| ==> block[i] == 0 || block[i] == 1
  }

  /** No overlay from j on hides pixel i. */
  predicate ClearFrom(ovs: seq<Gif>, j: nat, i: nat)
  {
    forall k :: j <= k < |ovs| ==> Clear(ovs[k], i)
  }

  /** The overlay is usable and hides no pixel from n on. */
  predicate FitsIn(g: Gif, n: nat)
  {
    OverlayData(g).Ok? && Fits(OverlayData(g).value.1, OverlayData(g).value.0, n)
  }

  /** Once sized, the overlays from j on succeed iff each is usable and
      hides no pixel beyond the block; then a pixel stays 1 iff it was 1
      and none of them hides it. */
  lemma Combine_Mask(ovs: seq<Gif>, j: nat, block: seq<int>)
    requires j <= |ovs| && |block| > 0 && IsMask(block)
    ensures Combine(ovs, j, block).Ok? <==> forall k :: j <= k < |ovs| ==> FitsIn(ovs[k], |block|)
    ensures Combine(ovs, j, block).Ok? ==>
              var res := Combine(ovs, j, block).value;
              |res| == |block| && IsMask(res) &&
              forall i :: 0 <= i < |res| ==> (res[i] == 1 <==> block[i] == 1 && ClearFrom(ovs, j, i))
  {
    Combine_Ok(ovs, j, block);
    Combine_Values(ovs, j, block);
  }

  lemma {:induction false} Combine_Ok(ovs: seq<Gif>, j: nat, block: seq<int>)
    requires j <= |ovs| && |block| > 0
    ensures Combine(ovs, j, block).Ok? <==> forall k :: j <= k < |ovs| ==> FitsIn(ovs[k], |block|)
    decreases |ovs| - j
  {
    if j < |ovs| {
      var d := OverlayData(ovs[j]);
      if d.Ok? {
        var (t, px) := d.value;
        if Fits(px, t, |block|) {
          var b := MaskedUpTo(block, px, t, |px|);
          assert Step(block, px, t) == Ok(b);
          Combine_Ok(ovs, j + 1, b);
        }
      }
    }
  }

  lemma {:induction false} Combine_Values(ovs: seq<Gif>, j: nat, block: seq<int>)
    requires j <= |ovs| && |block| > 0 && IsMask(block)
    ensures Combine(ovs, j, block).Ok? ==>
              var res := Combine(ovs, j, block).value;
              |res| == |block| && IsMask(res) &&
              forall i :: 0 <= i < |res| ==> (res[i] == 1 <==> block[i] == 1 && ClearFrom(ovs, j, i))
    decreases |ovs| - j
  {
    if j < |ovs| && Combine(ovs, j, block).Ok? {
      var (t, px) := OverlayData(ovs[j]).value;
      var b := MaskedUpTo(block, px, t, |px|);
      assert Step(block, px, t) == Ok(b);
      Combine_Values(ovs, j + 1, b);
      assert forall i :: 0 <= i < |b| ==> (b[i] == 1 <==> block[i] == 1 && Clear(ovs[j], i));
    }
  }

  /** Over all overlays: the run succeeds iff every overlay is usable and
      none hides a pixel beyond the first one's length; the mask then has
      the first overlay's length, and pixel i is 1 iff every overlay leaves
      it clear. */
  lemma Combine_All(ovs: seq<Gif>)
    requires |ovs| > 0
    ensures Combine(ovs, 0, []).Ok? <==>
            OverlayData(ovs[0]).Ok? &&
            forall k :: 0 <= k < |ovs| ==> FitsIn(ovs[k], |OverlayData(ovs[0]).value.1|)
    ensures Combine(ovs, 0, []).Ok? ==>
              var res := Combine(ovs, 0, []).value;
              |res| == |OverlayData(ovs[0]).value.1| && IsMask(res) &&
              forall i :: 0 <= i < |res| ==> (res[i] == 1 <==> AllClear(ovs, i))
  {
    var d := OverlayData(ovs[0]);
    if d.Ok? {
      var (t, px) := d.value;
      var ones := seq(|px|, _ => 1);
      var b := MaskedUpTo(ones, px, t, |px|);
      assert Step([], px, t) == Ok(b);
      Combine_Mask(ovs, 1, b);
      assert forall i :: 0 <= i < |b| ==> (b[i] == 1 <==> Clear(ovs[0], i));
    }
  }

  /** Neither the outcome nor the mask depends on the order of the
      overlays, as long as the one given first has the same pixel count. */
  lemma Combine_OrderFree(ovs: seq<Gif>, ovs': seq<Gif>)
    requires |ovs| > 0 && multiset(ovs) == multiset(ovs')
    requires Combine(ovs, 0, []).Ok? && OverlayData(ovs'[0]).Ok?
    requires |OverlayData(ovs[0]).value.1| == |OverlayData(ovs'[0]).value.1|
    ensures Combine(ovs', 0, []).Ok?
    ensures Combine(ovs, 0, []) == Combine(ovs', 0, [])
  {
    assert |ovs'| == |multiset(ovs')| == |multiset(ovs)| == |ovs|;
    Combine_All(ovs);
    Combine_All(ovs');
    var n := |OverlayData(ovs[0]).value.1|;
    forall k | 0 <= k < |ovs'|
      ensures FitsIn(ovs'[k], n)
    {
      assert ovs'[k] in multiset(ovs);
      var q :| 0 <= q < |ovs| && ovs[q] == ovs'[k];
    }
    forall i | 0 <= i
      ensures AllClear(ovs, i) <==> AllClear(ovs', i)
    {
      if AllClear(ovs, i) { AllClear_Perm(ovs, ovs', i); }
      if AllClear(ovs', i) { AllClear_Perm(ovs', ovs, i); }
    }
    SameMask(Combine(ovs, 0, []).value, Combine(ovs', 0, []).value, ovs, ovs');
  }

  /** A later overlay may be longer than the first when every extra pixel
      is transparent: lines 68-70 never write past the block. */
  lemma Combine_LongerTransparent()
    ensures var g1 := Gif(true, 1, 1, [], [GraphicControl(1), Image([1])]);
            var g2 := Gif(true, 1, 1, [], [GraphicControl(1), Image([1, 1])]);
            var g3 := Gif(true, 1, 1, [], [GraphicControl(1), Image([1, 2])]);
            Combine([g1, g2], 0, []) == Ok([1]) && Combine([g1, g3], 0, []) == Err(IndexError)
  {
    var g1 := Gif(true, 1, 1, [], [GraphicControl(1), Image([1])]);
    var g2 := Gif(true, 1, 1, [], [GraphicControl(1), Image([1, 1])]);
    var g3 := Gif(true, 1, 1, [], [GraphicControl(1), Image([1, 2])]);
    assert OverlayData(g1) == Ok((1, [1]));
    assert OverlayData(g2) == Ok((1, [1, 1]));
    assert OverlayData(g3) == Ok((1, [1, 2]));
    assert seq(1, _ => 1) == [1];
    assert MaskedUpTo([1], [1], 1, 1) == [1];
    assert MaskedUpTo([1], [1, 1], 1, 2) == [1];
    assert Step([], [1], 1) == Ok([1]);
    assert Step([1], [1, 1], 1) == Ok([1]);
    assert Step([1], [1, 2], 1) == Err(IndexError) by { assert [1, 2][1] != 1; }
    assert Combine([g1, g2], 2, [1]) == Ok([1]);
    assert Combine([g1, g2], 1, [1]) == Ok([1]);
    assert Combine([g1, g3], 1, [1]) == Err(IndexError);
  }

  lemma SameMask(res: seq<int>, res': seq<int>, ovs: seq<Gif>, ovs': seq<Gif>)
    requires |res| == |res'| && IsMask(res) && IsMask(res')
    requires forall i :: 0 <= i < |res| ==> (res[i] == 1 <==> AllClear(ovs, i))
    requires forall i :: 0 <= i < |res'| ==> (res'[i] == 1 <==> AllClear(ovs', i))
    requires forall i: nat :: AllClear(ovs, i) <==> AllClear(ovs', i)
    ensures res == res'
  {
    forall i | 0 <= i < |res|
      ensures res[i] == res'[i]
    {
    }
  }

  lemma AllClear_Perm(ovs: seq<Gif>, ovs': seq<Gif>, i: nat)
    requires multiset(ovs) == multiset(ovs')
    requires AllClear(ovs, i)
    ensures AllClear(ovs', i)
  {
    forall k | 0 <= k < |ovs'|
      ensures Clear(ovs'[k], i)
    {
      assert ovs'[k] in multiset(ovs);
      var q :| 0 <= q < |ovs| && ovs[q] == ovs'[k];
    }
  }

  // ------------------------------------------------------------- the script

  /** The output GIF: the first overlay's screen size, a two-colour table
      (black, white) at depth 1, and the mask. */
  datatype Output = Output(width: int, height: int, colourDepth: nat, colours: seq<Colour>, pixels: seq<int>)

  const BlackWhite: seq<Colour> := [(0, 0, 0), (255, 255, 255)]

  function SumOverlaysSpec(ovs: seq<Gif>): Result<Output, OverlayError>
  {
    if ovs == [] then Err(NoOverlays)
    else
      var block :- Combine(ovs, 0, []);
      Ok(Output(ovs[0].width, ovs[0].height, 1, BlackWhite, block))
  }

  /** Lines 68-70 on the output array, with the block as it was before;
      only a hidden pixel is written, so only a hidden pixel beyond the
      array fails. */
  method ApplyOverlay(outputBlock: array<int>, gifdata: seq<int>, transparentColour: int)
    returns (ok: bool)
    modifies outputBlock
    ensures ok <==> Fits(gifdata, transparentColour, outputBlock.Length)
    ensures ok ==> outputBlock[..] == MaskedUpTo(old(outputBlock[..]), gifdata, transparentColour, |gifdata|)
  {
    ghost var b0 := outputBlock[..];
    for i := 0 to |gifdata|
      invariant outputBlock[..] == MaskedUpTo(b0, gifdata, transparentColour, i)
      invariant forall q :: outputBlock.Length <= q < i ==> gifdata[q] == transparentColour
    {
      if gifdata[i] != transparentColour {
        if i >= outputBlock.Length {
          return false;
        }
        outputBlock[i] := 0;
      }
    }
    ok := true;
  }

  /** Lines 48-61 on one overlay. */
  method ReadOverlay(g: Gif) returns (r: Result<(int, seq<int>), OverlayError>)
    ensures r == OverlayData(g)
  {
    var transparentColour, gifdata := ScanBlocks(g.blocks);
    if transparentColour.None? || transparentColour.value == 0 {
      return Err(NoTransparentColour);
    }
    if gifdata.None? || gifdata.value == [] {
      return Err(NoPixels);
    }
    r := Ok((transparentColour.value, gifdata.value));
  }

  /** One overlay read and applied to the block (lines 48-70). */
  function StepOf(block: seq<int>, g: Gif): Result<seq<int>, OverlayError>
  {
    var (t, px) :- OverlayData(g);
    Step(block, px, t)
  }

  /** One overlay's turn: its error, or the rest applied to the new block. */
  lemma Combine_Step(ovs: seq<Gif>, j: nat, block: seq<int>)
    requires j < |ovs|
    ensures StepOf(block, ovs[j]).Err? ==> Combine(ovs, j, block) == Err(StepOf(block, ovs[j]).error)
    ensures StepOf(block, ovs[j]).Ok? ==> Combine(ovs, j, block) == Combine(ovs, j + 1, StepOf(block, ovs[j]).value)
  {
  }

  /** Lines 48-70 for one overlay: the block is created on the first
      overlay, then masked in place. */
  method ApplyStep(outputBlock: array<int>, g: Gif) returns (block: array<int>, err: Option<OverlayError>)
    modifies outputBlock
    ensures fresh(block) || block == outputBlock
    ensures err.Some? <==> StepOf(old(outputBlock[..]), g).Err?
    ensures err.Some? ==> err.value == StepOf(old(outputBlock[..]), g).error
    ensures err.None? ==> block[..] == StepOf(old(outputBlock[..]), g).value
  {
    block := outputBlock;
    var data := ReadOverlay(g);
    if data.Err? {
      return block, Some(data.error);
    }
    var (t, px) := data.value;
    if block.Length == 0 {
      block := new int[|px|](_ => 1);
      assert block[..] == seq(|px|, _ => 1);
    }
    var ok := ApplyOverlay(block, px, t);
    if !ok {
      return block, Some(IndexError);
    }
    err := None;
  }

  /** Lines 28-78. */
  method SumOverlays(ovs: seq<Gif>) returns (r: Result<Output, OverlayError>)
    ensures r == SumOverlaysSpec(ovs)
  {
    if |ovs| == 0 {
      return Err(NoOverlays);
    }
    var outputBlock := new int[0];
    var width: int, height: int := -1, -1;
    for j := 0 to |ovs|
      invariant fresh(outputBlock)
      invariant Combine(ovs, 0, []) == Combine(ovs, j, outputBlock[..])
      invariant j == 0 ==> width == -1 && height == -1
      invariant j > 0 ==> width == ovs[0].width && height == ovs[0].height
    {
      if width == -1 {
        width := ovs[j].width;
      }
      if height == -1 {
        height := ovs[j].height;
      }
      Combine_Step(ovs, j, outputBlock[..]);
      var err;
      outputBlock, err := ApplyStep(outputBlock, ovs[j]);
      if err.Some? {
        return Err(err.value);
      }
    }
    r := Ok(Output(width, height, 1, BlackWhite, outputBlock[..]));
  }
}
