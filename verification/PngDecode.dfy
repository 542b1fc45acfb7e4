/** The decoder as a whole: chunks, header, rows and pixels. */
module PngDecode {
  import opened Basics
  import opened PngFilters
  import opened PngChunks

  datatype Header = Header(width: nat, height: nat, depth: Option<Byte>, colorType: Option<Byte>)
  datatype Gathered = Gathered(header: Header, idat: Row)
  datatype Image = Image(width: nat, height: nat, data: Row)

  const BLANK := Gathered(Header(0, 0, Some(8), Some(6)), [])

  function TakeChunk(g: Gathered, c: Chunk): Result<Gathered, PngError> {
    if c.kind == IHDR then
      match (ReadBigEndian(c.data, 0), ReadBigEndian(c.data, 4))
      case (Some(w), Some(h)) => Ok(g.(header := Header(w, h, At(c.data, 8), At(c.data, 9))))
      case _ => Err(OutOfRange)
    else if c.kind == IDAT then Ok(g.(idat := g.idat + c.data))
    else Ok(g)
  }

  function TakeChunks(g: Gathered, cs: seq<Chunk>): Result<Gathered, PngError>
    decreases |cs|
  {
    if cs == [] then Ok(g)
    else
      match TakeChunk(g, cs[0])
      case Err(e) => Err(e)
      case Ok(next) => TakeChunks(next, cs[1..])
  }

  function Gather(g: Gathered, walked: Result<seq<Chunk>, PngError>): Result<Gathered, PngError> {
    match walked
    case Err(e) => Err(e)
    case Ok(cs) => TakeChunks(g, cs)
  }

  function Channels(colorType: Option<Byte>): nat {
    if colorType == Some(6) then 4 else if colorType == Some(2) then 3 else 0
  }

  lemma {:induction false} DecodedRowsFit(raw: Row, q: nat, height: nat, above: Row, channels: nat)
    requires channels > 0
    ensures DecodedRows(raw, q, height, above, channels).Ok? ==>
      && |DecodedRows(raw, q, height, above, channels).value| == height
      && Rectangular(DecodedRows(raw, q, height, above, channels).value, |above|)
    decreases height
  {
    hide Unfiltered;
    if height > 0 {
      if |above| == 0 {
        DecodedRowsFit(raw, q + 1, height - 1, above, channels);
      } else if q < |raw| && raw[q] <= 4 {
        DecodedRowsFit(raw, q + 1 + |above|, height - 1, Unfiltered(raw, q + 1, raw[q], above, channels, |above|),
            channels);
      }
    }
  }

  function DecodeImage(g: Gathered, inflate: Row -> Result<Row, PngError>): Result<Image, PngError> {
    if g.header.depth != Some(8) then Err(NotEightBit)
    else
      var channels := Channels(g.header.colorType);
      if channels == 0 then Err(BadColorType)
      else
        match inflate(g.idat)
        case Err(e) => Err(e)
        case Ok(raw) =>
          var w, h := g.header.width, g.header.height;
          DecodedRowsFit(raw, 0, h, Zeros(w * channels), channels);
          match DecodedRows(raw, 0, h, Zeros(w * channels), channels)
          case Err(e) => Err(e)
          case Ok(rows) => Ok(Image(w, h, Pixels(rows, w, channels)))
  }

  /** What the decoder makes of a file, given what the zlib library makes of its image data. */
  function Decoded(file: Row, inflate: Row -> Result<Row, PngError>): Result<Image, PngError> {
    match Gather(BLANK, Walk(file, 8))
    case Err(e) => Err(e)
    case Ok(g) => DecodeImage(g, inflate)
  }

  // ---------- a written file decodes to the image it was written from ----------

  predicate Plain(cs: seq<Chunk>) {
    cs != [] ==> cs[0].kind != IHDR && cs[0].kind != IEND && Plain(cs[1..])
  }

  function DataOf(c: Chunk): Row { if c.kind == IDAT then c.data else [] }

  /** The image data of these chunks, whatever else lies between them. */
  function ImageData(cs: seq<Chunk>): Row {
    if cs == [] then [] else DataOf(cs[0]) + ImageData(cs[1..])
  }

  lemma {:induction false} UpToEndStops(cs: seq<Chunk>, last: Chunk, after: seq<Chunk>)
    requires Plain(cs) && last.kind == IEND
    ensures UpToEnd(cs + [last] + after) == cs + [last]
  {
    if cs == [] {
      assert [last] + after == cs + [last] + after;
    } else {
      UpToEndStops(cs[1..], last, after);
      assert (cs + [last] + after)[1..] == cs[1..] + [last] + after;
      assert [cs[0]] + (cs[1..] + [last]) == cs + [last];
    }
  }

  lemma PlainStep(g: Gathered, c: Chunk)
    requires c.kind != IHDR
    ensures TakeChunk(g, c) == Ok(g.(idat := g.idat + DataOf(c)))
  {
    assert g.idat + [] == g.idat;
  }

  lemma LastStep(g: Gathered, c: Chunk)
    requires c.kind == IEND
    ensures TakeChunk(g, c) == Ok(g)
  {
  }

  lemma PlainCons(cs: seq<Chunk>)
    requires Plain(cs) && cs != []
    ensures cs[0].kind != IHDR && Plain(cs[1..])
  {
  }

  lemma {:induction false} PlainChunksGather(g: Gathered, cs: seq<Chunk>, last: Chunk)
    requires Plain(cs) && last.kind == IEND
    ensures TakeChunks(g, cs + [last]) == Ok(g.(idat := g.idat + ImageData(cs)))
    decreases |cs|
  {
    hide TakeChunk, TakeChunks, DataOf, Plain;
    if cs == [] {
      assert cs + [last] == [last] + [] && g.idat + [] == g.idat;
      LastStep(g, last);
      GatherStep(g, last, [], g);
      NoChunks(g);
    } else {
      PlainCons(cs);
      var next := g.(idat := g.idat + DataOf(cs[0]));
      assert cs + [last] == [cs[0]] + (cs[1..] + [last]);
      PlainStep(g, cs[0]);
      GatherStep(g, cs[0], cs[1..] + [last], next);
      PlainChunksGather(next, cs[1..], last);
      assert next.idat + ImageData(cs[1..]) == g.idat + (DataOf(cs[0]) + ImageData(cs[1..]));
    }
  }

  lemma NoChunks(g: Gathered)
    ensures TakeChunks(g, []) == Ok(g)
  {
  }

  function HeaderChunk(width: nat, height: nat, channels: nat): Chunk
    requires width < 0x1_0000_0000 && height < 0x1_0000_0000
  {
    Chunk(IHDR, BigEndian(width) + BigEndian(height) + [8, if channels == 4 then 6 else 2, 0, 0, 0])
  }

  lemma HeaderReads(g: Gathered, width: nat, height: nat, channels: nat)
    requires width < 0x1_0000_0000 && height < 0x1_0000_0000
    ensures TakeChunk(g, HeaderChunk(width, height, channels)) ==
            Ok(g.(header := Header(width, height, Some(8), Some(if channels == 4 then 6 else 2))))
  {
    hide BigEndian, ReadBigEndian;
    var tail: Row := [8, if channels == 4 then 6 else 2, 0, 0, 0];
    var data := HeaderChunk(width, height, channels).data;
    assert data[0..] == BigEndian(width) + (BigEndian(height) + tail);
    LengthReads(data, 0, width, BigEndian(height) + tail);
    assert data[4..] == BigEndian(height) + tail;
    LengthReads(data, 4, height, tail);
  }

  /**
   * A file of a signature, a header, image data in any number of pieces with other chunks between them, and an end
   * decodes to exactly the pixels that were filtered, whatever follows the end.
   */
  lemma WrittenImageDecodes(signature: Row, width: nat, channels: nat, rows: seq<Row>, filters: seq<nat>,
                            middle: seq<Chunk>, after: seq<Chunk>, inflate: Row -> Result<Row, PngError>)
    requires |signature| == 8 && width < 0x1_0000_0000 && |rows| < 0x1_0000_0000
    requires (channels == 3 || channels == 4) && Rectangular(rows, width * channels)
    requires |filters| == |rows| && FilterChoice(filters)
    requires AllWritable([HeaderChunk(width, |rows|, channels)] + middle + [Chunk(IEND, [])] + after) && Plain(middle)
    requires inflate(ImageData(middle)) == Ok(FilteredImage(rows, filters, Zeros(width * channels), channels))
    ensures Decoded(signature
        + WriteChunks([HeaderChunk(width, |rows|, channels)] + middle + [Chunk(IEND, [])] + after), inflate) ==
            Ok(Image(width, |rows|, Pixels(rows, width, channels)))
  {
    hide WriteChunks, HeaderChunk, TakeChunk, FilteredImage, DecodedRows, Plain, AllWritable, Walk, UpToEnd;
    var header, last := HeaderChunk(width, |rows|, channels), Chunk(IEND, []);
    var cs := [header] + middle + [last] + after;
    var file := signature + WriteChunks(cs);
    assert file[8..] == WriteChunks(cs);
    WalkReadsWritten(file, 8, cs);
    HeaderFirst(width, |rows|, channels, middle, last, after);
    HeaderReads(BLANK, width, |rows|, channels);
    var g := Gathered(Header(width, |rows|, Some(8), Some(if channels == 4 then 6 else 2)), []);
    PlainChunksGather(g, middle, last);
    assert [] + ImageData(middle) == ImageData(middle);
    GatherStep(BLANK, header, middle + [last], g);
    UnfilteringInvertsFiltering(rows, filters, width * channels, channels);
  }

  /** An image is only read with eight bits to a sample, and as RGB or RGBA. */
  lemma OtherFormatsAreRefused(g: Gathered, inflate: Row -> Result<Row, PngError>)
    ensures g.header.depth != Some(8) ==> DecodeImage(g, inflate) == Err(NotEightBit)
    ensures g.header.depth == Some(8) && g.header.colorType !in {Some(2), Some(6)} ==>
      DecodeImage(g, inflate) == Err(BadColorType)
    ensures g.header.depth == Some(8) && g.header.colorType in {Some(2), Some(6)} && inflate(g.idat).Err? ==>
      DecodeImage(g, inflate) == Err(inflate(g.idat).error)
  {
  }

  lemma GatherStep(g: Gathered, c: Chunk, cs: seq<Chunk>, next: Gathered)
    requires TakeChunk(g, c) == Ok(next)
    ensures TakeChunks(g, [c] + cs) == TakeChunks(next, cs)
  {
    hide TakeChunk;
    assert ([c] + cs)[1..] == cs;
  }

  lemma HeaderFirst(width: nat, height: nat, channels: nat, middle: seq<Chunk>, last: Chunk, after: seq<Chunk>)
    requires width < 0x1_0000_0000 && height < 0x1_0000_0000 && Plain(middle) && last.kind == IEND
    ensures UpToEnd([HeaderChunk(width, height, channels)] + middle + [last] + after) ==
            [HeaderChunk(width, height, channels)] + (middle + [last])
  {
    hide BigEndian;
    var header := HeaderChunk(width, height, channels);
    assert ([header] + middle + [last] + after)[1..] == middle + [last] + after;
    UpToEndStops(middle, last, after);
  }

  // ---------- the decoder as the host runs it ----------

  /** The chunk walk: one pass with a moving offset. */
  method GatherChunks(buf: Row) returns (r: Result<Gathered, PngError>)
    ensures r == Gather(BLANK, Walk(buf, 8))
  {
    hide Gather, Walk, ReadBigEndian, ChunkAt, TakeChunk;
    var p, g := 8, BLANK;
    while p < |buf|
      invariant Gather(BLANK, Walk(buf, 8)) == Gather(g, Walk(buf, p))
      decreases |buf| - p
    {
      GatherAhead(g, buf, p);
      var length := ReadBigEndian(buf, p);
      if length == None { return Err(OutOfRange); }
      var c := ChunkAt(buf, p, length.value);
      var next := TakeChunk(g, c);
      if next.Err? { return next; }
      if c.kind == IEND { return Ok(g); }
      g := next.value;
      p := p + 12 + length.value;
    }
    GatherAhead(g, buf, p);
    return Ok(g);
  }

  lemma GatherAhead(g: Gathered, buf: Row, p: nat)
    ensures p >= |buf| ==> Gather(g, Walk(buf, p)) == Ok(g)
    ensures p < |buf| ==>
              match ReadBigEndian(buf, p)
              case None => Gather(g, Walk(buf, p)) == Err(OutOfRange)
              case Some(length) =>
                match TakeChunk(g, ChunkAt(buf, p, length))
                case Err(e) => Gather(g, Walk(buf, p)) == Err(e)
                case Ok(next) =>
                  if ChunkAt(buf, p, length).kind == IEND then Gather(g, Walk(buf, p)) == Ok(g)
                  else Gather(g, Walk(buf, p)) == Gather(next, Walk(buf, p + 12 + length))
  {
    hide ReadBigEndian, ChunkAt;
    if p < |buf| && ReadBigEndian(buf, p).Some? {
      var length := ReadBigEndian(buf, p).value;
      var c, rest := ChunkAt(buf, p, length), Walk(buf, p + 12 + length);
      WalkFailsOneWay(buf, p + 12 + length);
      FailsOneWay(g, c);
      if TakeChunk(g, c).Ok? { StepOfGather(g, c, rest, TakeChunk(g, c).value); }
    }
  }

  lemma FailsOneWay(g: Gathered, c: Chunk)
    ensures TakeChunk(g, c).Err? ==> TakeChunk(g, c).error == OutOfRange
    ensures c.kind == IEND ==> TakeChunk(g, c) == Ok(g)
  {
  }

  lemma WalkFailsOneWay(buf: Row, p: nat)
    ensures Walk(buf, p).Err? ==> Walk(buf, p).error == OutOfRange
    decreases |buf| - p
  {
    if p < |buf| && ReadBigEndian(buf, p).Some? {
      WalkFailsOneWay(buf, p + 12 + ReadBigEndian(buf, p).value);
    }
  }

  lemma StepOfGather(g: Gathered, c: Chunk, walked: Result<seq<Chunk>, PngError>, next: Gathered)
    requires TakeChunk(g, c) == Ok(next)
    ensures TakeChunks(g, [c]) == Ok(next)
    ensures walked.Ok? ==> TakeChunks(g, [c] + walked.value) == TakeChunks(next, walked.value)
  {
    GatherStep(g, c, [], next);
    assert [c] + [] == [c];
    if walked.Ok? { GatherStep(g, c, walked.value, next); }
  }

  /** One row, unfiltered in place: `cur` still holds the row before it, and is overwritten from the left. */
  method UnfilterRow(raw: Row, q: nat, f: nat, cur: array<Byte>, prev: array<Byte>, channels: nat)
    requires f <= 4 && channels > 0 && cur.Length == prev.Length && cur != prev
    modifies cur
    ensures cur[..] == Unfiltered(raw, q, f, prev[..], channels, prev.Length)
  {
    hide Stored;
    var i := 0;
    while i < cur.Length
      invariant 0 <= i <= cur.Length
      invariant cur[..i] == Unfiltered(raw, q, f, prev[..], channels, i)
    {
      ghost var row := cur[..i];
      var a: Byte := if i >= channels then cur[i - channels] else 0;
      var c: Byte := if i >= channels then prev[i - channels] else 0;
      assert a == Left(row, i, channels) && c == Left(prev[..], i, channels);
      cur[i] := Stored(f, At(raw, q + i), a, prev[i], c);
      i := i + 1;
      assert cur[..i] == row + [cur[i - 1]];
    }
    assert cur[..] == cur[..i];
  }

  method PutPixel(cur: array<Byte>, out: array<Byte>, x: nat, di: nat, channels: nat)
    requires (channels == 3 || channels == 4) && cur != out
    requires x * channels + channels <= cur.Length && di + 4 <= out.Length
    modifies out
    ensures out[..di + 4] == old(out[..di]) + Pixel(cur[..], x, channels)
  {
    var si := x * channels;
    out[di], out[di + 1], out[di + 2] := cur[si], cur[si + 1], cur[si + 2];
    out[di + 3] := if channels == 4 then cur[si + 3] else 255;
    assert out[..di] == old(out[..di]);
  }

  /** One row of pixels, written behind those already in `out`. */
  method WritePixels(cur: array<Byte>, out: array<Byte>, start: nat, w: nat, channels: nat)
    requires (channels == 3 || channels == 4) && cur.Length == w * channels && cur != out
    requires start + 4 * w <= out.Length
    modifies out
    ensures out[..start + 4 * w] == old(out[..start]) + RowPixels(cur[..], channels, w)
  {
    hide RowPixels, Pixel;
    ghost var row, before := cur[..], out[..start];
    RowPixelsSteps(row, channels, 0, w);
    var x := 0;
    assert before == before + [];
    while x < w
      invariant 0 <= x <= w && x * channels <= cur.Length && cur[..] == row
      invariant out[..start + 4 * x] == before + RowPixels(row, channels, x)
    {
      RowPixelsSteps(row, channels, x, w);
      PutPixel(cur, out, x, start + 4 * x, channels);
      JoinPixels(out[..start + 4 * x + 4], before, RowPixels(row, channels, x), Pixel(row, x, channels));
      x := x + 1;
    }
  }

  lemma JoinPixels(all: Row, a: Row, b: Row, c: Row)
    requires all == a + b + c
    ensures all == a + (b + c)
  {
  }

  lemma RowPixelsSteps(row: Row, channels: nat, x: nat, w: nat)
    requires (channels == 3 || channels == 4) && x <= w && |row| == w * channels
    ensures x * channels <= |row| && RowPixels(row, channels, 0) == []
    ensures x < w ==> x * channels + channels == (x + 1) * channels <= |row| &&
                      RowPixels(row, channels, x + 1) == RowPixels(row, channels, x) + Pixel(row, x, channels)
  {
    assert x * channels + (w - x) * channels == w * channels;
    if x < w { assert (w - x) * channels == channels + (w - x - 1) * channels; }
  }

  /** The output buffer the decoder ends up with, when the rows from raw offset `q` on are still to come. */
  function PixelsFrom(raw: Row, q: nat, height: nat, above: Row, w: nat, channels: nat): Result<Row, PngError>
    requires (channels == 3 || channels == 4) && |above| == w * channels
  {
    DecodedRowsFit(raw, q, height, above, channels);
    match DecodedRows(raw, q, height, above, channels)
    case Err(e) => Err(e)
    case Ok(rows) => Ok(Pixels(rows, w, channels))
  }

  function Prefixed(done: Row, rest: Result<Row, PngError>): Result<Row, PngError> {
    match rest
    case Err(e) => Err(e)
    case Ok(more) => Ok(done + more)
  }

  lemma RowOfPixels(raw: Row, q: nat, height: nat, above: Row, w: nat, channels: nat, row: Row)
    requires (channels == 3 || channels == 4) && |above| == w * channels == |row| && height > 0
    requires if |above| == 0 then row == []
        else q < |raw| && raw[q] <= 4 && row == Unfiltered(raw, q + 1, raw[q], above, channels, |above|)
    ensures PixelsFrom(raw, q, height, above, w, channels) ==
            Prefixed(RowPixels(row, channels, w), PixelsFrom(raw, q + 1 + |above|, height - 1, row, w, channels))
  {
    hide Unfiltered, RowPixels;
    if |above| == 0 { assert above == row; }
    DecodedRowsFit(raw, q + 1 + |above|, height - 1, row, channels);
    var rest := DecodedRows(raw, q + 1 + |above|, height - 1, row, channels);
    if rest.Ok? {
      var rows := [row] + rest.value;
      assert rows[0] == row && rows[1..] == rest.value;
      assert DecodedRows(raw, q, height, above, channels) == Ok(rows);
      assert Pixels(rows, w, channels) == RowPixels(row, channels, w) + Pixels(rest.value, w, channels);
    }
  }

  lemma PrefixedTwice(a: Row, b: Row, rest: Result<Row, PngError>)
    ensures Prefixed(a, Prefixed(b, rest)) == Prefixed(a + b, rest)
  {
    if rest.Ok? { assert a + (b + rest.value) == a + b + rest.value; }
  }

  function OutputSize(rows: nat, w: nat): nat { w * rows * 4 }

  /** The rows, decoded into two row buffers that swap roles and one output buffer. */
  method DecodeRows(raw: Row, w: nat, h: nat, channels: nat) returns (r: Result<Row, PngError>)
    requires channels == 3 || channels == 4
    ensures r == PixelsFrom(raw, 0, h, Zeros(w * channels), w, channels)
  {
    hide PixelsFrom, OutputSize;
    var stride := w * channels;
    var out := new Byte[OutputSize(h, w)](_ => 0);
    var prev := new Byte[stride](_ => 0);
    var cur := new Byte[stride](_ => 0);
    assert prev[..] == Zeros(stride);
    var q, y, done := 0, 0, 0;
    assert out[..done] == [];
    PrefixedNothing(PixelsFrom(raw, 0, h, prev[..], w, channels));
    while y < h
      invariant 0 <= y <= h && done >= 0 && done + OutputSize(h - y, w) == out.Length
      invariant PixelsFrom(raw, 0, h, Zeros(stride), w, channels) ==
                Prefixed(out[..done], PixelsFrom(raw, q, h - y, prev[..], w, channels))
    {
      OutputSizes(h - y, w);
      var fine := DecodeRow(raw, q, cur, prev, out, done, h - y, w, channels);
      if !fine { return Err(BadFilter); }
      q, y, done := q + 1 + stride, y + 1, done + 4 * w;
    }
    OutputSizes(0, w);
    NoRowsLeft(raw, q, prev[..], w, channels);
    assert out[..] == out[..done] == out[..done] + [];
    return Ok(out[..]);
  }

  /** One turn of the row loop: filter number, unfiltering, pixels, and the row kept for the next turn. */
  method DecodeRow(raw: Row, q: nat, cur: array<Byte>, prev: array<Byte>, out: array<Byte>, done: nat,
                   height: nat, w: nat, channels: nat) returns (fine: bool)
    requires (channels == 3 || channels == 4) && cur.Length == prev.Length == w * channels && height > 0
    requires cur != prev && cur != out && prev != out && done + 4 * w <= out.Length
    modifies cur, prev, out
    ensures !fine ==> PixelsFrom(raw, q, height, old(prev[..]), w, channels) == Err(BadFilter)
    ensures fine ==> Prefixed(old(out[..done]), PixelsFrom(raw, q, height, old(prev[..]), w, channels)) ==
                     Prefixed(out[..done + 4 * w],
                         PixelsFrom(raw, q + 1 + w * channels, height - 1, prev[..], w, channels))
  {
    hide PixelsFrom, Unfiltered, RowPixels, Prefixed;
    ghost var above := prev[..];
    var f := At(raw, q);
    if prev.Length > 0 && (f == None || f.value > 4) {
      BadFilterFails(raw, q, height, above, w, channels);
      return false;
    }
    if prev.Length > 0 { UnfilterRow(raw, q + 1, f.value, cur, prev, channels); }
    ghost var row := cur[..];
    RowOfPixels(raw, q, height, above, w, channels, row);
    PrefixedTwice(out[..done], RowPixels(row, channels, w),
        PixelsFrom(raw, q + 1 + |above|, height - 1, row, w, channels));
    assert out[..done] == old(out[..done]);
    WritePixels(cur, out, done, w, channels);
    ghost var written := out[..done + 4 * w];
    forall i | 0 <= i < prev.Length { prev[i] := cur[i]; }
    assert prev[..] == row && out[..done + 4 * w] == written;
    return true;
  }

  lemma OutputSizes(n: nat, w: nat)
    ensures if n == 0 then OutputSize(n, w) == 0 else OutputSize(n, w) == 4 * w + OutputSize(n - 1, w)
  {
  }

  lemma PrefixedNothing(rest: Result<Row, PngError>)
    ensures Prefixed([], rest) == rest
  {
    if rest.Ok? { assert [] + rest.value == rest.value; }
  }

  lemma BadFilterFails(raw: Row, q: nat, height: nat, above: Row, w: nat, channels: nat)
    requires (channels == 3 || channels == 4) && |above| == w * channels > 0 && height > 0
    requires q >= |raw| || raw[q] > 4
    ensures PixelsFrom(raw, q, height, above, w, channels) == Err(BadFilter)
  {
  }

  lemma NoRowsLeft(raw: Row, q: nat, above: Row, w: nat, channels: nat)
    requires (channels == 3 || channels == 4) && |above| == w * channels
    ensures PixelsFrom(raw, q, 0, above, w, channels) == Ok([])
  {
  }

  /** The whole decoder: what it returns is what the file means. */
  method DecodePng(file: Row, inflate: Row -> Result<Row, PngError>) returns (r: Result<Image, PngError>)
    ensures r == Decoded(file, inflate)
  {
    hide Walk;
    var gathered := GatherChunks(file);
    if gathered.Err? { return Err(gathered.error); }
    var header := gathered.value.header;
    if header.depth != Some(8) { return Err(NotEightBit); }
    var channels := Channels(header.colorType);
    if channels == 0 { return Err(BadColorType); }
    var raw := inflate(gathered.value.idat);
    if raw.Err? { return Err(raw.error); }
    var pixels := DecodeRows(raw.value, header.width, header.height, channels);
    if pixels.Err? { return Err(pixels.error); }
    return Ok(Image(header.width, header.height, pixels.value));
  }
}
