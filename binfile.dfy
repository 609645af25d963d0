/** The intermediate `.bin` file of rpreddtypes.py: a text header of
    newline-terminated `KEY value` lines followed by a gzip-compressed body
    of width*height intensity bytes, its reader (a stateful object), its
    writer, and the configuration hash `genhash`.

    gzip and MD5 are foreign code: they appear as function-typed parameters
    (`compress`, `decompress`, `md5`) and nothing is assumed about them
    beyond what a lemma states in its requires. */
module BinFile {
  import opened Util
  import opened Text

  /** A header keyword: plain ASCII without blanks or newlines. */
  type Keyword = k: string | IsAscii(k) && ' ' !in k && '\n' !in k witness ""

  /** A line that `readline().rstrip().decode('ascii')` gives back unchanged. */
  type CleanText = s: string | CleanLine(s) witness ""

  const HeaderKey: CleanText := "RAIN PREDICTOR BIN FILE"
  const VersionKey: Keyword := "VERSION"
  const WidthKey: Keyword := "WIDTH"
  const HeightKey: Keyword := "HEIGHT"
  const XOffsetKey: Keyword := "XOFFSET"
  const YOffsetKey: Keyword := "YOFFSET"
  const TotalRainKey: Keyword := "TOTALRAIN"

  const DefaultSeed: int := 0xabcddcba

  /** Why reading or querying a file stops. `NotValid`, `Unsupported`,
      `Corrupted`, `NoData` and `NoTotalRain` are the source's own
      RpBinFileReadError messages; the others are the Python built-in
      exceptions that the same code raises on malformed lines. */
  datatype ReadError =
    | NotValid                 // "is not a valid file"
    | Unsupported(vnum: string) // "is version ... which is not supported"
    | Corrupted                // body length differs from width*height
    | NotAscii                 // UnicodeDecodeError from decode('ascii')
    | WrongFieldCount          // ValueError: the line does not split into two words
    | NotAnInteger             // ValueError from int()
    | DecompressFailed         // gzip.decompress raised
    | NoData                   // buffer requested before any data was read
    | NoTotalRain              // getTotalRain on a version 1 file
    | IndexOutOfRange          // getNumpyArray on a buffer shorter than width*height

  // ------------------------------------------------------- reading lines

  /** `istream.readline()`: up to and including the first newline (byte 10),
      or everything that is left. Returns the line and the rest. */
  function ReadLine(f: seq<byte>): (r: (seq<byte>, seq<byte>))
    ensures r.0 + r.1 == f
  {
    if f == [] then ([], [])
    else if f[0] == 10 then ([10], f[1..])
    else
      var rest := ReadLine(f[1..]);
      assert [f[0]] + (rest.0 + rest.1) == f;
      ([f[0]] + rest.0, rest.1)
  }

  /** What `bytes.rstrip()` removes: space, tab, newline, VT, FF, CR. */
  predicate IsByteSpace(b: byte)
  {
    b == 32 || 9 <= b <= 13
  }

  /** `bytes.rstrip()` */
  function RStrip(b: seq<byte>): (r: seq<byte>)
    ensures |r| <= |b| && r == b[..|r|]
    ensures |r| > 0 ==> !IsByteSpace(r[|r| - 1])
  {
    if b != [] && IsByteSpace(b[|b| - 1]) then RStrip(b[..|b| - 1]) else b
  }

  /** `line.rstrip().decode('ascii')` */
  function LineText(line: seq<byte>): Result<string, ReadError>
  {
    match DecodeAscii(RStrip(line))
    case None => Err(NotAscii)
    case Some(s) => Ok(s)
  }

  /** `key, value = line.rstrip().decode('ascii').split(" ")` */
  function KeyValue(line: seq<byte>): Result<(string, string), ReadError>
  {
    var text :- LineText(line);
    var parts := Split(text, ' ');
    if |parts| != 2 then Err(WrongFieldCount) else Ok((parts[0], parts[1]))
  }

  /** A `KEY value` line whose value is then passed through `int()`. */
  function KeyInt(line: seq<byte>): Result<(string, int), ReadError>
  {
    var kv :- KeyValue(line);
    match ParseInt(kv.1)
    case None => Err(NotAnInteger)
    case Some(n) => Ok((kv.0, n))
  }

  // -------------------------------------------------------------- header

  /** What a successful `readHeader` learns. `totalrain` is present only in
      version 2 files; version 1 files leave the reader's field alone. */
  datatype Header = Header(version: int, width: int, height: int,
                           xoffset: int, yoffset: int, totalrain: Option<int>)

  /** The first line, which must read `RAIN PREDICTOR BIN FILE`; yields the rest. */
  function MagicLine(f: seq<byte>): Result<seq<byte>, ReadError>
  {
    var (line, rest) := ReadLine(f);
    var magic :- LineText(line);
    if magic != HeaderKey then Err(NotValid) else Ok(rest)
  }

  /** The second line, `VERSION 1` or `VERSION 2`; yields the version text
      (compared as a string, so "01" or "+2" are not supported) and the rest. */
  function VersionLine(f: seq<byte>): Result<(string, seq<byte>), ReadError>
  {
    var (line, rest) := ReadLine(f);
    var kv :- KeyValue(line);
    if kv.0 != VersionKey then Err(NotValid)
    else if kv.1 != "1" && kv.1 != "2" then Err(Unsupported(kv.1))
    else Ok((kv.1, rest))
  }

  /** A `KEY value` line with an integer value: keyword, value and the rest. */
  function IntLine(f: seq<byte>): Result<(string, int, seq<byte>), ReadError>
  {
    var (line, rest) := ReadLine(f);
    var kn :- KeyInt(line);
    Ok((kn.0, kn.1, rest))
  }

  /** The header as `readHeader` accepts it, with the bytes after it
      (which `read` then decompresses). The checks come in the source's
      order; the stages below each read one line. */
  function ParseHeader(f: seq<byte>): Result<(Header, seq<byte>), ReadError>
  {
    var r0 :- MagicLine(f);
    var v :- VersionLine(r0);
    ParseWidth(v.0, v.1)
  }

  function VersionNumber(vnum: string): int { if vnum == "1" then 1 else 2 }

  function ParseWidth(vnum: string, f: seq<byte>): Result<(Header, seq<byte>), ReadError>
  {
    var w :- IntLine(f);
    if w.0 != WidthKey || w.1 < 0 then Err(NotValid) else ParseHeight(vnum, w.0, w.1, w.2)
  }

  /** The HEIGHT line's keyword is never compared: the source tests the
      width keyword `wkey` a second time here. */
  function ParseHeight(vnum: string, wkey: string, width: int, f: seq<byte>)
    : Result<(Header, seq<byte>), ReadError>
  {
    var h :- IntLine(f);
    if wkey != WidthKey || h.1 < 0 then Err(NotValid) else ParseXOffset(vnum, width, h.1, h.2)
  }

  function ParseXOffset(vnum: string, width: int, height: int, f: seq<byte>)
    : Result<(Header, seq<byte>), ReadError>
  {
    var x :- IntLine(f);
    if x.0 != XOffsetKey || x.1 < 0 then Err(NotValid) else ParseYOffset(vnum, width, height, x.1, x.2)
  }

  function ParseYOffset(vnum: string, width: int, height: int, xoffset: int, f: seq<byte>)
    : Result<(Header, seq<byte>), ReadError>
  {
    var y :- IntLine(f);
    if y.0 != YOffsetKey || y.1 < 0 then Err(NotValid)
    else if vnum == "2" then ParseTotalRain(width, height, xoffset, y.1, y.2)
    else Ok((Header(VersionNumber(vnum), width, height, xoffset, y.1, None), y.2))
  }

  /** Version 2 only: the TOTALRAIN line, whose value may be negative. */
  function ParseTotalRain(width: int, height: int, xoffset: int, yoffset: int, f: seq<byte>)
    : Result<(Header, seq<byte>), ReadError>
  {
    var t :- IntLine(f);
    if t.0 != TotalRainKey then Err(NotValid)
    else Ok((Header(2, width, height, xoffset, yoffset, Some(t.1)), t.2))
  }

  /** What every accepted header satisfies: a supported version, no negative
      size or offset, and a total-rain value exactly when it is version 2. */
  lemma ParseHeader_Valid(f: seq<byte>)
    ensures ParseHeader(f).Ok? ==>
      var h := ParseHeader(f).value.0;
      && (h.version == 1 || h.version == 2)
      && h.width >= 0 && h.height >= 0 && h.xoffset >= 0 && h.yoffset >= 0
      && (h.totalrain.Some? <==> h.version == 2)
  {
    var r0 := MagicLine(f);
    if r0.Ok? {
      var v := VersionLine(r0.value);
      if v.Ok? {
        ParseWidth_Valid(v.value.0, v.value.1);
      }
    }
  }

  lemma ParseWidth_Valid(vnum: string, f: seq<byte>)
    requires vnum == "1" || vnum == "2"
    ensures ParseWidth(vnum, f).Ok? ==>
      var h := ParseWidth(vnum, f).value.0;
      && h.version == VersionNumber(vnum)
      && h.width >= 0 && h.height >= 0 && h.xoffset >= 0 && h.yoffset >= 0
      && (h.totalrain.Some? <==> vnum == "2")
  {
    var w := IntLine(f);
    if w.Ok? && w.value.0 == WidthKey && w.value.1 >= 0 {
      ParseHeight_Valid(vnum, w.value.0, w.value.1, w.value.2);
    }
  }

  lemma ParseHeight_Valid(vnum: string, wkey: string, width: int, f: seq<byte>)
    requires vnum == "1" || vnum == "2"
    ensures ParseHeight(vnum, wkey, width, f).Ok? ==>
      var h := ParseHeight(vnum, wkey, width, f).value.0;
      && h.version == VersionNumber(vnum) && h.width == width
      && h.height >= 0 && h.xoffset >= 0 && h.yoffset >= 0
      && (h.totalrain.Some? <==> vnum == "2")
  {
    var h := IntLine(f);
    if h.Ok? && h.value.1 >= 0 {
      ParseXOffset_Valid(vnum, width, h.value.1, h.value.2);
    }
  }

  lemma ParseXOffset_Valid(vnum: string, width: int, height: int, f: seq<byte>)
    requires vnum == "1" || vnum == "2"
    ensures ParseXOffset(vnum, width, height, f).Ok? ==>
      var h := ParseXOffset(vnum, width, height, f).value.0;
      && h.version == VersionNumber(vnum) && h.width == width && h.height == height
      && h.xoffset >= 0 && h.yoffset >= 0
      && (h.totalrain.Some? <==> vnum == "2")
  {
    var x := IntLine(f);
    if x.Ok? && x.value.0 == XOffsetKey && x.value.1 >= 0 {
      ParseYOffset_Valid(vnum, width, height, x.value.1, x.value.2);
    }
  }

  lemma ParseYOffset_Valid(vnum: string, width: int, height: int, xoffset: int, f: seq<byte>)
    requires vnum == "1" || vnum == "2"
    ensures ParseYOffset(vnum, width, height, xoffset, f).Ok? ==>
      var h := ParseYOffset(vnum, width, height, xoffset, f).value.0;
      && h.version == VersionNumber(vnum) && h.width == width && h.height == height
      && h.xoffset == xoffset && h.yoffset >= 0
      && (h.totalrain.Some? <==> vnum == "2")
  {
    var y := IntLine(f);
    if y.Ok? && y.value.0 == YOffsetKey && y.value.1 >= 0 && vnum == "2" {
      assert ParseYOffset(vnum, width, height, xoffset, f)
          == ParseTotalRain(width, height, xoffset, y.value.1, y.value.2);
    }
  }

  // ------------------------------------------- the header, line by line

  /** The bytes after the first k lines of f. */
  function After(f: seq<byte>, k: nat): seq<byte>
  {
    if k == 0 then f else ReadLine(After(f, k - 1)).1
  }

  /** Line k of f (counting from 0), newline included. */
  function Line(f: seq<byte>, k: nat): seq<byte>
  {
    ReadLine(After(f, k)).0
  }

  /** Line k reads `key n` with an integer n. */
  predicate IsInt(f: seq<byte>, k: nat)
  {
    KeyInt(Line(f, k)).Ok?
  }

  function Key(f: seq<byte>, k: nat): string
    requires IsInt(f, k)
  {
    KeyInt(Line(f, k)).value.0
  }

  function Val(f: seq<byte>, k: nat): int
    requires IsInt(f, k)
  {
    KeyInt(Line(f, k)).value.1
  }

  /** Line k reads `key n` with the given keyword and n >= 0. */
  predicate Field(f: seq<byte>, k: nat, key: string)
  {
    IsInt(f, k) && Key(f, k) == key && Val(f, k) >= 0
  }

  /** In a version 2 file line 6 reads `TOTALRAIN n` for any integer n. */
  predicate RainLine(f: seq<byte>, vnum: string)
  {
    vnum == "2" ==> IsInt(f, 6) && Key(f, 6) == TotalRainKey
  }

  /** Line 0 reads `RAIN PREDICTOR BIN FILE`. */
  predicate MagicOk(f: seq<byte>)
  {
    LineText(Line(f, 0)).Ok? && LineText(Line(f, 0)).value == HeaderKey
  }

  /** The version text of line 1, when it reads `VERSION v`. */
  function Ver(f: seq<byte>): Option<string>
  {
    var kv := KeyValue(Line(f, 1));
    if kv.Ok? && kv.value.0 == VersionKey then Some(kv.value.1) else None
  }

  /** What a header must hold, line by line: the magic line, `VERSION 1`
      or `VERSION 2`, `WIDTH w`, a height line with any keyword, `XOFFSET x`
      and `YOFFSET y`, all four values non-negative, and for version 2
      `TOTALRAIN t`. */
  predicate WellFormed(f: seq<byte>)
  {
    && MagicOk(f)
    && Ver(f).Some? && (Ver(f).value == "1" || Ver(f).value == "2")
    && Field(f, 2, WidthKey)
    && IsInt(f, 3) && Val(f, 3) >= 0
    && Field(f, 4, XOffsetKey)
    && Field(f, 5, YOffsetKey)
    && RainLine(f, Ver(f).value)
  }

  /** The header put together from the lines after the first sizes, and the
      bytes after its last line. */
  function Assemble(f: seq<byte>, vnum: string, width: int, height: int, xoffset: int, yoffset: int)
    : (Header, seq<byte>)
    requires RainLine(f, vnum)
  {
    if vnum == "2" then (Header(2, width, height, xoffset, yoffset, Some(Val(f, 6))), After(f, 7))
    else (Header(1, width, height, xoffset, yoffset, None), After(f, 6))
  }

  /** The header that the lines of f describe. */
  function HeaderFrom(f: seq<byte>): (Header, seq<byte>)
    requires WellFormed(f)
  {
    Assemble(f, Ver(f).value, Val(f, 2), Val(f, 3), Val(f, 4), Val(f, 5))
  }

  lemma IntLine_At(f: seq<byte>, k: nat)
    ensures IntLine(After(f, k)).Ok? <==> IsInt(f, k)
    ensures IsInt(f, k) ==> IntLine(After(f, k)) == Ok((Key(f, k), Val(f, k), After(f, k + 1)))
  {
    assert After(f, k + 1) == ReadLine(After(f, k)).1;
  }

  lemma ParseTotalRain_Lines(f: seq<byte>, width: int, height: int, xoffset: int, yoffset: int)
    ensures ParseTotalRain(width, height, xoffset, yoffset, After(f, 6)).Ok? <==> RainLine(f, "2")
    ensures RainLine(f, "2") ==>
              ParseTotalRain(width, height, xoffset, yoffset, After(f, 6)).value
              == Assemble(f, "2", width, height, xoffset, yoffset)
  {
    IntLine_At(f, 6);
  }

  lemma ParseYOffset_Lines(f: seq<byte>, vnum: string, width: int, height: int, xoffset: int)
    requires vnum == "1" || vnum == "2"
    ensures ParseYOffset(vnum, width, height, xoffset, After(f, 5)).Ok? <==>
              Field(f, 5, YOffsetKey) && RainLine(f, vnum)
    ensures Field(f, 5, YOffsetKey) && RainLine(f, vnum) ==>
              ParseYOffset(vnum, width, height, xoffset, After(f, 5)).value
              == Assemble(f, vnum, width, height, xoffset, Val(f, 5))
  {
    IntLine_At(f, 5);
    if Field(f, 5, YOffsetKey) {
      var y := Val(f, 5);
      if vnum == "2" {
        ParseTotalRain_Lines(f, width, height, xoffset, y);
        assert ParseYOffset(vnum, width, height, xoffset, After(f, 5))
            == ParseTotalRain(width, height, xoffset, y, After(f, 6));
      } else {
        assert ParseYOffset(vnum, width, height, xoffset, After(f, 5))
            == Ok((Header(1, width, height, xoffset, y, None), After(f, 6)));
      }
    }
  }

  lemma ParseXOffset_Lines(f: seq<byte>, vnum: string, width: int, height: int)
    requires vnum == "1" || vnum == "2"
    ensures ParseXOffset(vnum, width, height, After(f, 4)).Ok? <==>
              Field(f, 4, XOffsetKey) && Field(f, 5, YOffsetKey) && RainLine(f, vnum)
    ensures Field(f, 4, XOffsetKey) && Field(f, 5, YOffsetKey) && RainLine(f, vnum) ==>
              ParseXOffset(vnum, width, height, After(f, 4)).value
              == Assemble(f, vnum, width, height, Val(f, 4), Val(f, 5))
  {
    IntLine_At(f, 4);
    if Field(f, 4, XOffsetKey) {
      ParseYOffset_Lines(f, vnum, width, height, Val(f, 4));
    }
  }

  lemma ParseHeight_Lines(f: seq<byte>, vnum: string, width: int)
    requires vnum == "1" || vnum == "2"
    ensures ParseHeight(vnum, WidthKey, width, After(f, 3)).Ok? <==>
              IsInt(f, 3) && Val(f, 3) >= 0 && Field(f, 4, XOffsetKey) && Field(f, 5, YOffsetKey) &&
              RainLine(f, vnum)
    ensures IsInt(f, 3) && Val(f, 3) >= 0 && Field(f, 4, XOffsetKey) && Field(f, 5, YOffsetKey) &&
            RainLine(f, vnum) ==>
              ParseHeight(vnum, WidthKey, width, After(f, 3)).value
              == Assemble(f, vnum, width, Val(f, 3), Val(f, 4), Val(f, 5))
  {
    IntLine_At(f, 3);
    if IsInt(f, 3) && Val(f, 3) >= 0 {
      ParseXOffset_Lines(f, vnum, width, Val(f, 3));
    }
  }

  lemma ParseWidth_Lines(f: seq<byte>, vnum: string)
    requires vnum == "1" || vnum == "2"
    ensures ParseWidth(vnum, After(f, 2)).Ok? <==>
              Field(f, 2, WidthKey) && IsInt(f, 3) && Val(f, 3) >= 0 &&
              Field(f, 4, XOffsetKey) && Field(f, 5, YOffsetKey) && RainLine(f, vnum)
    ensures Field(f, 2, WidthKey) && IsInt(f, 3) && Val(f, 3) >= 0 &&
            Field(f, 4, XOffsetKey) && Field(f, 5, YOffsetKey) && RainLine(f, vnum) ==>
              ParseWidth(vnum, After(f, 2)).value
              == Assemble(f, vnum, Val(f, 2), Val(f, 3), Val(f, 4), Val(f, 5))
  {
    IntLine_At(f, 2);
    if Field(f, 2, WidthKey) {
      ParseHeight_Lines(f, vnum, Val(f, 2));
    }
  }

  /** readHeader accepts exactly the files whose lines carry the keywords
      and values of `WellFormed`, and then reads the header those lines
      describe; every other file is rejected. */
  lemma ParseHeader_Lines(f: seq<byte>)
    ensures ParseHeader(f).Ok? <==> WellFormed(f)
    ensures WellFormed(f) ==> ParseHeader(f).value == HeaderFrom(f)
  {
    Preamble_At(f);
    if MagicLine(f).Ok? && VersionLine(After(f, 1)).Ok? {
      ParseWidth_Lines(f, Ver(f).value);
    }
  }

  /** The rejections of lines 60-76 and their messages: a wrong magic line
      is not a valid file, and a VERSION line with another version names it
      as unsupported. */
  lemma ParseHeader_Preamble(f: seq<byte>)
    ensures LineText(Line(f, 0)).Ok? && LineText(Line(f, 0)).value != HeaderKey ==> ParseHeader(f) == Err(NotValid)
    ensures MagicOk(f) && KeyValue(Line(f, 1)).Ok? && KeyValue(Line(f, 1)).value.0 != VersionKey ==>
              ParseHeader(f) == Err(NotValid)
    ensures MagicOk(f) && Ver(f).Some? && Ver(f).value != "1" && Ver(f).value != "2" ==>
              ParseHeader(f) == Err(Unsupported(Ver(f).value))
  {
    Preamble_At(f);
  }

  /** Only the value of the height line matters: two files that agree
      on every other line and on the height value, whatever the height
      line's keyword, read the same. */
  lemma ParseHeader_HeightKeyIgnored(f: seq<byte>, f': seq<byte>)
    requires Line(f, 0) == Line(f', 0) && Line(f, 1) == Line(f', 1) && Line(f, 2) == Line(f', 2)
    requires IsInt(f, 3) && IsInt(f', 3) && Val(f, 3) == Val(f', 3)
    requires After(f, 4) == After(f', 4)
    ensures ParseHeader(f) == ParseHeader(f')
  {
    IntLine_At(f, 3);
    IntLine_At(f', 3);
    Preamble_At(f);
    Preamble_At(f');
    if MagicLine(f).Ok? && VersionLine(After(f, 1)).Ok? {
      var vnum := VersionLine(After(f, 1)).value.0;
      SameWidth(f, f', vnum);
      assert ParseHeader(f) == ParseWidth(vnum, After(f, 2));
      assert ParseHeader(f') == ParseWidth(vnum, After(f', 2));
    }
  }

  /** The first two lines' outcomes depend on those lines alone. */
  lemma Preamble_At(f: seq<byte>)
    ensures MagicLine(f) == (match LineText(Line(f, 0))
                             case Err(e) => Err(e)
                             case Ok(m) => if m != HeaderKey then Err(NotValid) else Ok(After(f, 1)))
    ensures VersionLine(After(f, 1)) ==
              (match KeyValue(Line(f, 1))
               case Err(e) => Err(e)
               case Ok(kv) =>
                 if kv.0 != VersionKey then Err(NotValid)
                 else if kv.1 != "1" && kv.1 != "2" then Err(Unsupported(kv.1))
                 else Ok((kv.1, After(f, 2))))
    ensures MagicLine(f).Err? ==> ParseHeader(f) == Err(MagicLine(f).error)
    ensures MagicLine(f).Ok? && VersionLine(After(f, 1)).Err? ==> ParseHeader(f) == Err(VersionLine(After(f, 1)).error)
  {
    assert After(f, 1) == ReadLine(f).1;
    assert After(f, 2) == ReadLine(After(f, 1)).1;
  }

  lemma SameWidth(f: seq<byte>, f': seq<byte>, vnum: string)
    requires Line(f, 2) == Line(f', 2)
    requires IntLine(After(f, 3)).Ok? && IntLine(After(f', 3)).Ok?
    requires IntLine(After(f, 3)).value.1 == IntLine(After(f', 3)).value.1
    requires IntLine(After(f, 3)).value.2 == IntLine(After(f', 3)).value.2
    ensures ParseWidth(vnum, After(f, 2)) == ParseWidth(vnum, After(f', 2))
  {
    IntLine_At(f, 2);
    IntLine_At(f', 2);
    if IsInt(f, 2) {
      SameHeight(vnum, Key(f, 2), Val(f, 2), After(f, 3), After(f', 3));
    }
  }

  lemma SameHeight(vnum: string, wkey: string, width: int, g: seq<byte>, g': seq<byte>)
    requires IntLine(g).Ok? && IntLine(g').Ok?
    requires IntLine(g).value.1 == IntLine(g').value.1 && IntLine(g).value.2 == IntLine(g').value.2
    ensures ParseHeight(vnum, wkey, width, g) == ParseHeight(vnum, wkey, width, g')
  {
  }

  /** `read`: the header, then the decompressed body, which must hold
      exactly width*height bytes. */
  function Read(f: seq<byte>, decompress: seq<byte> -> Option<seq<byte>>)
    : Result<(Header, seq<byte>), ReadError>
  {
    var hb :- ParseHeader(f);
    match decompress(hb.1)
    case None => Err(DecompressFailed)
    case Some(data) =>
      if hb.0.width * hb.0.height != |data| then Err(Corrupted) else Ok((hb.0, data))
  }

  // -------------------------------------------------------------- reader

  /** RpBinReader: the fields `readHeader` fills in one by one. */
  class BinReader {
    var version: int
    var buffer: seq<byte>
    var blen: int
    var width: int
    var height: int
    var xoffset: int
    var yoffset: int
    var totalrain: int

    constructor ()
      ensures version == 0 && buffer == [] && blen == 0
      ensures width == 0 && height == 0 && xoffset == 0 && yoffset == 0
      ensures totalrain == -1
    {
      version, buffer, blen := 0, [], 0;
      width, height, xoffset, yoffset := 0, 0, 0, 0;
      totalrain := -1;
    }

    /** The fields hold header `h`; `totalrain` keeps `oldTotal` when `h` has none. */
    predicate HeaderIs(h: Header, oldTotal: int)
      reads this
    {
      && version == h.version && width == h.width && height == h.height
      && xoffset == h.xoffset && yoffset == h.yoffset
      && totalrain == (if h.totalrain.Some? then h.totalrain.value else oldTotal)
    }

    /** readHeader(filename, withData) on the file's bytes `f`. On success the
        fields hold the header, and with data the buffer holds the
        decompressed body; a length mismatch is reported after the buffer
        has been stored, as in the source. */
    method ReadHeader(f: seq<byte>, withData: bool, decompress: seq<byte> -> Option<seq<byte>>)
      returns (err: Option<ReadError>)
      modifies this
      ensures ParseHeader(f).Err? ==> err == Some(ParseHeader(f).error)
      ensures ParseHeader(f).Ok? ==> HeaderIs(ParseHeader(f).value.0, old(totalrain))
      ensures ParseHeader(f).Ok? && !withData ==>
                err == None && buffer == old(buffer) && blen == old(blen)
      ensures ParseHeader(f).Ok? && withData && decompress(ParseHeader(f).value.1).None? ==>
                err == Some(DecompressFailed) && buffer == old(buffer) && blen == old(blen)
      ensures ParseHeader(f).Ok? && withData && decompress(ParseHeader(f).value.1).Some? ==>
                buffer == decompress(ParseHeader(f).value.1).value && blen == width * height
                && err == (if blen != |buffer| then Some(Corrupted) else None)
      ensures withData ==> (err == None <==> Read(f, decompress).Ok?)
      ensures withData && err == None ==>
        Read(f, decompress).value == (Header(version, width, height, xoffset, yoffset,
                                             ParseHeader(f).value.0.totalrain), buffer)
    {
      var rest;
      err, rest := ReadHeaderLines(f);
      if err.None? && withData {
        var data := decompress(rest);
        if data.None? { return Some(DecompressFailed); }
        buffer := data.value;
        blen := width * height;
        if blen != |buffer| { err := Some(Corrupted); }
      }
    }

    /** The header lines of readHeader: each field is stored as soon as its
        line has been converted, before the line's keyword and sign are
        checked. On success `rest` is what follows the header. The lines
        are read one method per line after the magic and version lines. */
    method ReadHeaderLines(f: seq<byte>) returns (err: Option<ReadError>, rest: seq<byte>)
      modifies this`version, this`width, this`height, this`xoffset, this`yoffset, this`totalrain
      ensures ParseHeader(f).Err? ==> err == Some(ParseHeader(f).error)
      ensures ParseHeader(f).Ok? ==>
                && err == None && rest == ParseHeader(f).value.1
                && HeaderIs(ParseHeader(f).value.0, old(totalrain))
    {
      rest := [];
      var r0 := MagicLine(f);
      if r0.Err? { return Some(r0.error), rest; }

      var v := VersionLine(r0.value);
      if v.Err? { return Some(v.error), rest; }
      var vnum := v.value.0;
      version := VersionNumber(vnum);
      err, rest := ReadWidth(vnum, v.value.1);
    }

    /** The WIDTH line, then the rest of the header. */
    method ReadWidth(vnum: string, f: seq<byte>) returns (err: Option<ReadError>, rest: seq<byte>)
      requires version == VersionNumber(vnum)
      modifies this`width, this`height, this`xoffset, this`yoffset, this`totalrain
      ensures ParseWidth(vnum, f).Err? ==> err == Some(ParseWidth(vnum, f).error)
      ensures ParseWidth(vnum, f).Ok? ==>
                && err == None && rest == ParseWidth(vnum, f).value.1
                && HeaderIs(ParseWidth(vnum, f).value.0, old(totalrain))
    {
      rest := [];
      var w := IntLine(f);
      if w.Err? { return Some(w.error), rest; }
      var (wkey, wv, r1) := w.value;
      width := wv;
      if wkey != WidthKey || wv < 0 { return Some(NotValid), rest; }
      err, rest := ReadHeight(vnum, wkey, r1);
    }

    /** The HEIGHT line (checked with the width keyword `wkey`), then the rest. */
    method ReadHeight(vnum: string, wkey: string, f: seq<byte>) returns (err: Option<ReadError>, rest: seq<byte>)
      requires version == VersionNumber(vnum)
      modifies this`height, this`xoffset, this`yoffset, this`totalrain
      ensures ParseHeight(vnum, wkey, width, f).Err? ==> err == Some(ParseHeight(vnum, wkey, width, f).error)
      ensures ParseHeight(vnum, wkey, width, f).Ok? ==>
                && err == None && rest == ParseHeight(vnum, wkey, width, f).value.1
                && HeaderIs(ParseHeight(vnum, wkey, width, f).value.0, old(totalrain))
    {
      rest := [];
      var h := IntLine(f);
      if h.Err? { return Some(h.error), rest; }
      var (_, hv, r2) := h.value;
      height := hv;
      if wkey != WidthKey || hv < 0 { return Some(NotValid), rest; }
      err, rest := ReadXOffset(vnum, r2);
    }

    /** The XOFFSET line, then the rest. */
    method ReadXOffset(vnum: string, f: seq<byte>) returns (err: Option<ReadError>, rest: seq<byte>)
      requires version == VersionNumber(vnum)
      modifies this`xoffset, this`yoffset, this`totalrain
      ensures ParseXOffset(vnum, width, height, f).Err? ==>
                err == Some(ParseXOffset(vnum, width, height, f).error)
      ensures ParseXOffset(vnum, width, height, f).Ok? ==>
                && err == None && rest == ParseXOffset(vnum, width, height, f).value.1
                && HeaderIs(ParseXOffset(vnum, width, height, f).value.0, old(totalrain))
    {
      rest := [];
      var x := IntLine(f);
      if x.Err? { return Some(x.error), rest; }
      var (xkey, xv, r3) := x.value;
      xoffset := xv;
      if xkey != XOffsetKey || xv < 0 { return Some(NotValid), rest; }
      err, rest := ReadYOffset(vnum, r3);
    }

    /** The YOFFSET line, then TOTALRAIN in a version 2 file. */
    method ReadYOffset(vnum: string, f: seq<byte>) returns (err: Option<ReadError>, rest: seq<byte>)
      requires version == VersionNumber(vnum)
      modifies this`yoffset, this`totalrain
      ensures ParseYOffset(vnum, width, height, xoffset, f).Err? ==>
                err == Some(ParseYOffset(vnum, width, height, xoffset, f).error)
      ensures ParseYOffset(vnum, width, height, xoffset, f).Ok? ==>
                && err == None && rest == ParseYOffset(vnum, width, height, xoffset, f).value.1
                && HeaderIs(ParseYOffset(vnum, width, height, xoffset, f).value.0, old(totalrain))
    {
      rest := [];
      var y := IntLine(f);
      if y.Err? { return Some(y.error), rest; }
      var (ykey, yv, r4) := y.value;
      yoffset := yv;
      if ykey != YOffsetKey || yv < 0 { return Some(NotValid), rest; }
      rest := r4;
      if vnum == "2" {
        err, rest := ReadTotalRain(rest);
      } else {
        err := None;
      }
    }

    /** The TOTALRAIN line of a version 2 file; its value may be negative. */
    method ReadTotalRain(f: seq<byte>) returns (err: Option<ReadError>, rest: seq<byte>)
      requires version == 2
      modifies this`totalrain
      ensures ParseTotalRain(width, height, xoffset, yoffset, f).Err? ==>
                err == Some(ParseTotalRain(width, height, xoffset, yoffset, f).error)
      ensures ParseTotalRain(width, height, xoffset, yoffset, f).Ok? ==>
                && err == None && rest == ParseTotalRain(width, height, xoffset, yoffset, f).value.1
                && HeaderIs(ParseTotalRain(width, height, xoffset, yoffset, f).value.0, old(totalrain))
    {
      rest := [];
      var t := IntLine(f);
      if t.Err? { return Some(t.error), rest; }
      var (tkey, tv, r5) := t.value;
      totalrain := tv;
      if tkey != TotalRainKey { return Some(NotValid), rest; }
      rest := r5;
      err := None;
    }

    /** getTotalRain */
    function GetTotalRain(): (r: Result<int, ReadError>)
      reads this
      ensures r.Ok? <==> version >= 2
      ensures r.Ok? ==> r.value == totalrain
      ensures r.Err? ==> r.error == NoTotalRain
    {
      if version < 2 then Err(NoTotalRain) else Ok(totalrain)
    }

    /** get1Dbuffer */
    function Get1DBuffer(): (r: Result<seq<byte>, ReadError>)
      reads this
      ensures r.Ok? <==> buffer != []
      ensures r.Ok? ==> r.value == buffer
      ensures r.Err? ==> r.error == NoData
    {
      if buffer == [] then Err(NoData) else Ok(buffer)
    }

    /** getNumpyArray: the first width*height bytes of the buffer as a
        (width, height) array. The source copies them into a flat array and
        reshapes it, which puts flat element a*height + b at [a, b]; the
        model fills the reshaped array directly, row by row. */
    method GetNumpyArray() returns (r: Result<array2<int>, ReadError>)
      requires width >= 0 && height >= 0
      ensures buffer == [] ==> r == Err(NoData)
      ensures buffer != [] && |buffer| < width * height ==> r == Err(IndexOutOfRange)
      ensures buffer != [] && |buffer| >= width * height <==> r.Ok?
      ensures r.Ok? ==> r.value.Length0 == width && r.value.Length1 == height
      ensures r.Ok? ==> forall a, b :: 0 <= a < width && 0 <= b < height ==>
                          Flat(a, b, height) < |buffer| && r.value[a, b] == buffer[Flat(a, b, height)]
    {
      if buffer == [] { return Err(NoData); }
      if |buffer| < width * height { return Err(IndexOutOfRange); }
      var buf, w, h := buffer, width, height;
      var grid := new int[w, h];
      for a := 0 to w
        invariant forall a', b :: 0 <= a' < a && 0 <= b < h ==>
                    Flat(a', b, h) < |buf| && grid[a', b] == buf[Flat(a', b, h)]
      {
        CopyRow(grid, buf, a);
      }
      return Ok(grid);
    }
  }

  /** One row of the reshape: grid[a, b] := buffer[a*height + b] for every b. */
  method CopyRow(grid: array2<int>, buffer: seq<byte>, a: nat)
    requires a < grid.Length0 && grid.Length0 * grid.Length1 <= |buffer|
    modifies grid
    ensures forall b :: 0 <= b < grid.Length1 ==>
              Flat(a, b, grid.Length1) < |buffer| && grid[a, b] == buffer[Flat(a, b, grid.Length1)]
    ensures forall a', b :: 0 <= a' < grid.Length0 && a' != a && 0 <= b < grid.Length1 ==>
              grid[a', b] == old(grid[a', b])
  {
    var h := grid.Length1;
    var base := a * h;
    CellInRange(a, grid.Length0, h);
    for b := 0 to h
      invariant forall b' :: 0 <= b' < b ==> grid[a, b'] == buffer[base + b']
      invariant forall a', b' :: 0 <= a' < grid.Length0 && a' != a && 0 <= b' < h ==>
                  grid[a', b'] == old(grid[a', b'])
    {
      grid[a, b] := buffer[base + b];
    }
  }

  /** Where cell [a, b] of a reshaped (_, h) array sits in the flat buffer. */
  function Flat(a: int, b: int, h: int): int { a * h + b }

  lemma CellInRange(a: int, w: int, h: int)
    requires 0 <= a < w && 0 <= h
    ensures a * h + h <= w * h
  {
    assert a * h + h == (a + 1) * h <= w * h;
  }

  // -------------------------------------------------------------- writer

  /** Why `write` stops part-way: `bytearray(values)` raises ValueError on a
      value outside 0..255, after the header lines were already written. */
  datatype WriteError = ValueOutOfByteRange

  /** What `write` puts in the file: the bytes written and whether it stopped. */
  datatype Written = Written(bytes: seq<byte>, error: Option<WriteError>)

  /** `'{0} {1}'.format(key, n)` */
  function FieldLine(k: Keyword, n: int): (s: string)
    ensures IsAscii(s) && '\n' !in s
  {
    k + " " + Decimal(n)
  }

  /** The seven header lines that `write` emits, always as version 2. */
  function HeaderLines(width: int, height: int, xoffset: int, yoffset: int, totalRain: int)
    : (ls: seq<string>)
    ensures |ls| == 7 && forall i :: 0 <= i < 7 ==> IsAscii(ls[i])
  {
    [HeaderKey,
     FieldLine(VersionKey, 2),
     FieldLine(WidthKey, width),
     FieldLine(HeightKey, height),
     FieldLine(XOffsetKey, xoffset),
     FieldLine(YOffsetKey, yoffset),
     FieldLine(TotalRainKey, totalRain)]
  }

  /** A line of text as `'{0}\n'.format(...).encode('ascii')` writes it. */
  function EncodeLine(s: string): seq<byte>
    requires IsAscii(s)
  {
    Ascii(s + "\n")
  }

  function EncodeLines(ls: seq<string>): seq<byte>
    requires forall i :: 0 <= i < |ls| ==> IsAscii(ls[i])
  {
    if ls == [] then [] else EncodeLine(ls[0]) + EncodeLines(ls[1..])
  }

  predicate AllBytes(values: seq<int>)
  {
    forall i :: 0 <= i < |values| ==> 0 <= values[i] < 256
  }

  function ToBytes(values: seq<int>): (b: seq<byte>)
    requires AllBytes(values)
    ensures b == values
  {
    if values == [] then [] else [values[0] as byte] + ToBytes(values[1..])
  }

  /** RpBinWriter.write */
  function Write(compress: seq<byte> -> seq<byte>, width: int, height: int,
                 xoffset: int, yoffset: int, totalRain: int, values: seq<int>): Written
  {
    var ls := HeaderLines(width, height, xoffset, yoffset, totalRain);
    if AllBytes(values) then Written(EncodeLines(ls) + compress(ToBytes(values)), None)
    else Written(EncodeLines(ls), Some(ValueOutOfByteRange))
  }

  // ---------------------------------------------- round trip and rejections

  /** See CleanText. */
  predicate CleanLine(s: string)
  {
    IsAscii(s) && '\n' !in s && (|s| > 0 ==> !IsByteSpace(s[|s| - 1] as int))
  }

  lemma Ascii_Append(a: string, b: string)
    requires IsAscii(a) && IsAscii(b)
    ensures IsAscii(a + b) && Ascii(a + b) == Ascii(a) + Ascii(b)
  {
  }

  lemma {:induction false} ReadLine_Line(l: seq<byte>, rest: seq<byte>)
    requires 10 !in l
    ensures ReadLine(l + [10] + rest) == (l + [10], rest)
  {
    if l == [] {
      assert l + [10] + rest == [10] + rest;
      assert ([10] + rest)[1..] == rest;
    } else {
      assert (l + [10] + rest)[1..] == l[1..] + [10] + rest;
      ReadLine_Line(l[1..], rest);
      assert [l[0]] + (l[1..] + [10]) == l + [10];
    }
  }

  /** Reading a clean encoded line gives the line back and leaves the rest. */
  lemma ReadCleanLine(s: string, rest: seq<byte>)
    requires CleanLine(s)
    ensures ReadLine(EncodeLine(s) + rest) == (Ascii(s) + [10], rest)
    ensures LineText(Ascii(s) + [10]) == Ok(s)
  {
    Ascii_Append(s, "\n");
    assert Ascii("\n") == [10];
    var a := Ascii(s);
    assert 10 !in a by {
      forall i | 0 <= i < |a| ensures a[i] != 10 {
        assert s[i] != '\n';
      }
    }
    ReadLine_Line(a, rest);
    assert RStrip(a + [10]) == a by {
      assert (a + [10])[..|a|] == a;
      if a != [] { assert a[|a| - 1] == s[|s| - 1] as int; }
    }
    DecodeAscii_Ascii(s);
  }

  lemma KeyValueLine(k: string, v: string)
    requires CleanLine(k + " " + v) && ' ' !in k && ' ' !in v
    ensures KeyValue(Ascii(k + " " + v) + [10]) == Ok((k, v))
  {
    ReadCleanLine(k + " " + v, []);
    Split_Pair(k, v, ' ');
    assert k + " " + v == k + [' '] + v;
  }

  lemma KeyIntLine(k: Keyword, n: int)
    ensures CleanLine(FieldLine(k, n))
    ensures KeyInt(Ascii(FieldLine(k, n)) + [10]) == Ok((k, n))
  {
    var s := FieldLine(k, n);
    assert s[|s| - 1] == Decimal(n)[|Decimal(n)| - 1];
    assert Decimal(n)[|Decimal(n)| - 1] != '-' by {
      if n < 0 {
        assert Decimal(n) == "-" + DecimalNat(-n);
        assert Decimal(n)[|Decimal(n)| - 1] == DecimalNat(-n)[|DecimalNat(-n)| - 1];
      }
    }
    KeyValueLine(k, Decimal(n));
    ParseInt_Decimal(n);
  }

  /** An encoded `KEY value` line, followed by anything, reads back as IntLine. */
  lemma IntLine_Field(k: Keyword, n: int, rest: seq<byte>)
    ensures IntLine(EncodeLine(FieldLine(k, n)) + rest) == Ok((k, n, rest))
  {
    KeyIntLine(k, n);
    ReadCleanLine(FieldLine(k, n), rest);
  }

  lemma MagicLine_Header(rest: seq<byte>)
    ensures MagicLine(EncodeLine(HeaderKey) + rest) == Ok(rest)
  {
    ReadCleanLine(HeaderKey, rest);
  }

  lemma VersionLine_Two(rest: seq<byte>)
    ensures VersionLine(EncodeLine(FieldLine(VersionKey, 2)) + rest) == Ok(("2", rest))
  {
    assert Decimal(2) == "2";
    assert FieldLine(VersionKey, 2) == VersionKey + " " + "2";
    KeyIntLine(VersionKey, 2);
    ReadCleanLine(FieldLine(VersionKey, 2), rest);
    KeyValueLine(VersionKey, "2");
  }

  /** The offset and total-rain lines that `write` emits, as ParseXOffset reads them. */
  lemma Placement_Write(width: int, height: int, xoffset: int, yoffset: int, totalRain: int,
                        body: seq<byte>)
    requires xoffset >= 0 && yoffset >= 0
    ensures ParseXOffset("2", width, height,
                         EncodeLine(FieldLine(XOffsetKey, xoffset))
                         + (EncodeLine(FieldLine(YOffsetKey, yoffset))
                         + (EncodeLine(FieldLine(TotalRainKey, totalRain)) + body)))
            == Ok((Header(2, width, height, xoffset, yoffset, Some(totalRain)), body))
  {
    var r2 := EncodeLine(FieldLine(TotalRainKey, totalRain)) + body;
    var r1 := EncodeLine(FieldLine(YOffsetKey, yoffset)) + r2;
    YOffset_Write(width, height, xoffset, yoffset, totalRain, body);
    IntLine_Field(XOffsetKey, xoffset, r1);
  }

  lemma YOffset_Write(width: int, height: int, xoffset: int, yoffset: int, totalRain: int,
                      body: seq<byte>)
    requires yoffset >= 0
    ensures ParseYOffset("2", width, height, xoffset,
                         EncodeLine(FieldLine(YOffsetKey, yoffset))
                         + (EncodeLine(FieldLine(TotalRainKey, totalRain)) + body))
            == Ok((Header(2, width, height, xoffset, yoffset, Some(totalRain)), body))
  {
    var r2 := EncodeLine(FieldLine(TotalRainKey, totalRain)) + body;
    IntLine_Field(TotalRainKey, totalRain, body);
    IntLine_Field(YOffsetKey, yoffset, r2);
  }

  /** The width and height lines, then the placement, as ParseWidth reads
      them. The keyword of the second line can be any keyword at all: the
      HEIGHT keyword is never checked. */
  lemma Size_Write(width: int, hkey: Keyword, height: int, more: seq<byte>)
    requires width >= 0 && height >= 0
    ensures ParseWidth("2", EncodeLine(FieldLine(WidthKey, width))
                            + (EncodeLine(FieldLine(hkey, height)) + more))
            == ParseXOffset("2", width, height, more)
  {
    var r1 := EncodeLine(FieldLine(hkey, height)) + more;
    IntLine_Field(hkey, height, more);
    IntLine_Field(WidthKey, width, r1);
  }

  lemma {:induction false} EncodeLines_Seven(ls: seq<string>, body: seq<byte>)
    requires |ls| == 7 && forall i :: 0 <= i < 7 ==> IsAscii(ls[i])
    ensures EncodeLines(ls) + body
            == EncodeLine(ls[0]) + (EncodeLine(ls[1]) + (EncodeLine(ls[2]) + (EncodeLine(ls[3])
               + (EncodeLine(ls[4]) + (EncodeLine(ls[5]) + (EncodeLine(ls[6]) + body))))))
  {
    forall k | 0 <= k < 7
      ensures EncodeLines(ls[k..]) == EncodeLine(ls[k]) + EncodeLines(ls[k + 1..])
    {
      assert ls[k..][1..] == ls[k + 1..];
    }
    assert ls[7..] == [];
    assert ls[0..] == ls;
  }

  /** Round trip: the header that `write` emits reads back as version 2 with
      the same width, height, offsets and total rain, and the rest of the
      file is exactly the compressed body. */
  lemma ParseHeader_Write(compress: seq<byte> -> seq<byte>,
      width: int, height: int, xoffset: int, yoffset: int, totalRain: int, values: seq<int>)
    requires width >= 0 && height >= 0 && xoffset >= 0 && yoffset >= 0
    requires AllBytes(values)
    ensures Write(compress, width, height, xoffset, yoffset, totalRain, values).error == None
    ensures ParseHeader(Write(compress, width, height, xoffset, yoffset, totalRain, values).bytes)
            == Ok((Header(2, width, height, xoffset, yoffset, Some(totalRain)), compress(ToBytes(values))))
  {
    var ls := HeaderLines(width, height, xoffset, yoffset, totalRain);
    var body := compress(ToBytes(values));
    EncodeLines_Seven(ls, body);
    var r3 := EncodeLine(ls[4]) + (EncodeLine(ls[5]) + (EncodeLine(ls[6]) + body));
    var r1 := EncodeLine(ls[2]) + (EncodeLine(ls[3]) + r3);
    var r0 := EncodeLine(ls[1]) + r1;
    Placement_Write(width, height, xoffset, yoffset, totalRain, body);
    Size_Write(width, HeightKey, height, r3);
    VersionLine_Two(r1);
    MagicLine_Header(r0);
  }

  /** The whole file: if decompression undoes compression, `read` gets the
      values back exactly when there are width*height of them, and reports
      corruption otherwise. */
  lemma Read_Write(compress: seq<byte> -> seq<byte>, decompress: seq<byte> -> Option<seq<byte>>,
      width: int, height: int, xoffset: int, yoffset: int, totalRain: int, values: seq<int>)
    requires width >= 0 && height >= 0 && xoffset >= 0 && yoffset >= 0
    requires AllBytes(values)
    requires decompress(compress(ToBytes(values))) == Some(ToBytes(values))
    ensures var r := Read(Write(compress, width, height, xoffset, yoffset, totalRain, values).bytes,
                          decompress);
            && (r.Ok? <==> |values| == width * height)
            && (r.Ok? ==> r.value == (Header(2, width, height, xoffset, yoffset, Some(totalRain)), values))
            && (r.Err? ==> r.error == Corrupted)
  {
    ParseHeader_Write(compress, width, height, xoffset, yoffset, totalRain, values);
  }

  // ------------------------------------------------------------- genhash

  /** A value that `'{0:0>8x}'` writes as exactly eight hex digits. */
  predicate InWord(n: int) { 0 <= n < 0x1_0000_0000 }

  predicate PixelInWord(p: Pixel) { InWord(p.0) && InWord(p.1) }

  /** `'{0:0>8x}{1:0>8x}'.format(p[0], p[1])` */
  function PairHex(p: Pixel): (s: string)
    ensures IsAscii(s)
  {
    Hex8(p.0) + Hex8(p.1)
  }

  /** The sensitive pairs, in list order. */
  function SenseHex(sense: seq<Pixel>): (s: string)
    ensures IsAscii(s)
  {
    if sense == [] then "" else PairHex(sense[0]) + SenseHex(sense[1..])
  }

  /** Everything genhash feeds to MD5, in order: seed, centre, the sensitive
      pairs, then the heavy threshold. Successive `update` calls hash the
      concatenation of their arguments. */
  function HashPreimage(centre: Pixel, sense: seq<Pixel>, heavyThreshold: int, seed: int): (s: string)
    ensures IsAscii(s)
  {
    Hex8(seed) + PairHex(centre) + SenseHex(sense) + Hex8(heavyThreshold)
  }

  /** genhash: the first eight hex characters of the MD5 digest of the
      preimage (`hasher.digest().hex()[0:8]`). */
  function GenHash(md5: seq<byte> -> seq<byte>, centre: Pixel, sense: seq<Pixel>,
                   heavyThreshold: int, seed: int := DefaultSeed): (h: string)
    ensures var d := HexBytes(md5(Ascii(HashPreimage(centre, sense, heavyThreshold, seed))));
            |h| == Min(8, |d|) && h == d[..|h|] && AllHex(h)
  {
    var d := HexBytes(md5(Ascii(HashPreimage(centre, sense, heavyThreshold, seed))));
    d[..SliceIndex(8, |d|)]
  }

  /** On the 32-bit range every field is exactly eight characters. */
  lemma {:induction false} SenseHex_Length(sense: seq<Pixel>)
    requires forall i :: 0 <= i < |sense| ==> PixelInWord(sense[i])
    ensures |SenseHex(sense)| == 16 * |sense|
  {
    if sense != [] {
      Hex8_Exact(sense[0].0);
      Hex8_Exact(sense[0].1);
      SenseHex_Length(sense[1..]);
    }
  }

  lemma HashPreimage_Length(centre: Pixel, sense: seq<Pixel>, heavyThreshold: int, seed: int)
    requires InWord(seed) && PixelInWord(centre) && InWord(heavyThreshold)
    requires forall i :: 0 <= i < |sense| ==> PixelInWord(sense[i])
    ensures |HashPreimage(centre, sense, heavyThreshold, seed)| == 8 * (4 + 2 * |sense|)
  {
    Hex8_Exact(seed);
    Hex8_Exact(centre.0);
    Hex8_Exact(centre.1);
    Hex8_Exact(heavyThreshold);
    SenseHex_Length(sense);
  }

  lemma Assoc4<T>(x: seq<T>, y: seq<T>, z: seq<T>, w: seq<T>)
    ensures x + y + z + w == x + (y + (z + w))
  {
  }

  lemma Assoc6<T>(v: seq<T>, x: seq<T>, y: seq<T>, z: seq<T>, w: seq<T>)
    ensures v + (x + y) + z + w == v + (x + (y + (z + w)))
  {
  }

  /** Two in-range eight-digit fields at the front of equal strings agree. */
  lemma Hex8_Prefix(a: int, b: int, s: string, t: string)
    requires InWord(a) && InWord(b) && Hex8(a) + s == Hex8(b) + t
    ensures a == b && s == t
  {
    Hex8_Exact(a);
    Hex8_Exact(b);
    assert Hex8(a) == (Hex8(a) + s)[..8] == (Hex8(b) + t)[..8] == Hex8(b);
    Hex8_Injective(a, b);
    assert s == (Hex8(a) + s)[8..] == (Hex8(b) + t)[8..] == t;
  }

  lemma {:induction false} SenseHex_Injective(sa: seq<Pixel>, sb: seq<Pixel>, ta: string, tb: string)
    requires forall i :: 0 <= i < |sa| ==> PixelInWord(sa[i])
    requires forall i :: 0 <= i < |sb| ==> PixelInWord(sb[i])
    requires |sa| == |sb| && SenseHex(sa) + ta == SenseHex(sb) + tb
    ensures sa == sb && ta == tb
  {
    if sa != [] {
      var pa, pb := sa[0], sb[0];
      Assoc4(Hex8(pa.0), Hex8(pa.1), SenseHex(sa[1..]), ta);
      Assoc4(Hex8(pb.0), Hex8(pb.1), SenseHex(sb[1..]), tb);
      Hex8_Prefix(pa.0, pb.0, Hex8(pa.1) + (SenseHex(sa[1..]) + ta), Hex8(pb.1) + (SenseHex(sb[1..]) + tb));
      Hex8_Prefix(pa.1, pb.1, SenseHex(sa[1..]) + ta, SenseHex(sb[1..]) + tb);
      SenseHex_Injective(sa[1..], sb[1..], ta, tb);
      assert sa == [pa] + sa[1..] && sb == [pb] + sb[1..];
    } else {
      assert SenseHex(sa) + ta == ta && SenseHex(sb) + tb == tb;
    }
  }

  /** For values in [0, 2^32) the preimage determines every input, so in
      particular reordering the sensitive pairs changes it. */
  lemma HashPreimage_Injective(ca: Pixel, sa: seq<Pixel>, ha: int, seedA: int,
                               cb: Pixel, sb: seq<Pixel>, hb: int, seedB: int)
    requires InWord(seedA) && PixelInWord(ca) && InWord(ha)
    requires forall i :: 0 <= i < |sa| ==> PixelInWord(sa[i])
    requires InWord(seedB) && PixelInWord(cb) && InWord(hb)
    requires forall i :: 0 <= i < |sb| ==> PixelInWord(sb[i])
    requires HashPreimage(ca, sa, ha, seedA) == HashPreimage(cb, sb, hb, seedB)
    ensures seedA == seedB && ca == cb && sa == sb && ha == hb
  {
    HashPreimage_Length(ca, sa, ha, seedA);
    HashPreimage_Length(cb, sb, hb, seedB);
    var ra := Hex8(ca.0) + (Hex8(ca.1) + (SenseHex(sa) + Hex8(ha)));
    var rb := Hex8(cb.0) + (Hex8(cb.1) + (SenseHex(sb) + Hex8(hb)));
    Assoc6(Hex8(seedA), Hex8(ca.0), Hex8(ca.1), SenseHex(sa), Hex8(ha));
    Assoc6(Hex8(seedB), Hex8(cb.0), Hex8(cb.1), SenseHex(sb), Hex8(hb));
    Hex8_Prefix(seedA, seedB, ra, rb);
    Hex8_Prefix(ca.0, cb.0, Hex8(ca.1) + (SenseHex(sa) + Hex8(ha)), Hex8(cb.1) + (SenseHex(sb) + Hex8(hb)));
    Hex8_Prefix(ca.1, cb.1, SenseHex(sa) + Hex8(ha), SenseHex(sb) + Hex8(hb));
    SenseHex_Injective(sa, sb, Hex8(ha), Hex8(hb));
    Hex8_Injective(ha, hb);
  }
}
