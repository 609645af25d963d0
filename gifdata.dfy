/** The decoded GIF files the scripts read through the `gif` module: the
    logical screen size, the global colour table and the block list. The
    decoder itself is not modelled; scripts receive its result. */
module GifData {
  import opened Util

  /** An (r, g, b) entry of a colour table. */
  type Colour = (int, int, int)

  datatype Block =
    | Image(pixels: seq<int>)                 // `block.get_pixels()`, colour indices
    | GraphicControl(transparentColour: int)  // a graphic control extension
    | Trailer
    | OtherBlock

  /** What `gif.Reader().feed(...)` leaves behind; `complete` is
      `is_complete() and has_screen_descriptor()`. */
  datatype Gif = Gif(complete: bool, width: nat, height: nat, colours: seq<Colour>, blocks: seq<Block>)

  /** `color_table[index]`, None for an IndexError. */
  function Lookup(colours: seq<Colour>, index: int): (r: Option<Colour>)
    ensures r.Some? <==> -|colours| <= index < |colours|
    ensures 0 <= index < |colours| ==> r == Some(colours[index])
  {
    match PyIndex(index, |colours|)
    case None => None
    case Some(k) => Some(colours[k])
  }
}
