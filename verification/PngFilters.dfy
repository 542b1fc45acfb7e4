/** The five row filters of section 6 of RFC 2083, and the decoder's in-place row loop that undoes them. */
module PngFilters {
  import opened Basics

  type Byte = b: int | 0 <= b < 256
  type Row = seq<Byte>

  datatype PngError = NotEightBit | BadColorType | BadFilter | OutOfRange | BadData

  function Abs(x: int): nat { if x < 0 then -x else x }

  /** The predictor of section 6.6, as the decoder computes it. */
  function Paeth(a: Byte, b: Byte, c: Byte): Byte {
    var p := a + b - c;
    var pa, pb, pc := Abs(p - a), Abs(p - b), Abs(p - c);
    if pa <= pb && pa <= pc then a else if pb <= pc then b else c
  }

  /** It is the neighbour nearest to left + above - upper left; ties go to the left one, then to the one above. */
  lemma PaethIsNearest(a: Byte, b: Byte, c: Byte)
    ensures var p, n := a + b - c, Paeth(a, b, c);
      && (n == a || n == b || n == c)
      && Abs(p - n) <= Abs(p - a) && Abs(p - n) <= Abs(p - b) && Abs(p - n) <= Abs(p - c)
      && (Abs(p - a) == Abs(p - n) ==> n == a)
      && (Abs(p - a) != Abs(p - n) && Abs(p - b) == Abs(p - n) ==> n == b)
  {
  }

  /** What filter `f` predicts from the bytes to the left, above and upper left. */
  function Predict(f: nat, a: Byte, b: Byte, c: Byte): Byte
    requires f <= 4
  {
    if f == 0 then 0 else if f == 1 then a else if f == 2 then b else if f == 3 then (a + b) / 2 else Paeth(a, b, c)
  }

  function Left(row: Row, i: nat, channels: nat): Byte
    requires i <= |row| && channels > 0
  {
    if i >= channels then row[i - channels] else 0
  }

  /** The encoder's side, filter by filter as sections 6.2 to 6.6 define them: None, Sub, Up, Average and Paeth. */
  function Filtered(f: nat, x: Byte, left: Byte, up: Byte, upperLeft: Byte): Byte
    requires f <= 4
  {
    match f
    case 0 => x
    case 1 => (x - left) % 256
    case 2 => (x - up) % 256
    case 3 => (x - (left + up) / 2) % 256
    case 4 => (x - Paeth(left, up, upperLeft)) % 256
  }

  function FilterRow(f: nat, row: Row, above: Row, channels: nat): (r: Row)
    requires f <= 4 && |above| == |row| && channels > 0
    ensures |r| == |row|
  {
    seq(|row|, i requires 0 <= i < |row| =>
      Filtered(f, row[i], Left(row, i, channels), above[i], Left(above, i, channels)))
  }

  /** A byte of the raw data, or None behind its end. */
  function At(raw: Row, q: nat): Option<Byte> { if q < |raw| then Some(raw[q]) else None }

  /** What the decoder stores for a raw byte: a missing one reads as nothing, and is stored as 0. */
  function Stored(f: nat, x: Option<Byte>, a: Byte, b: Byte, c: Byte): Byte
    requires f <= 4
  {
    if x == None then 0 else (x.value + Predict(f, a, b, c)) % 256
  }

  /** The first `n` bytes of the row whose raw bytes start at `q`. */
  function Unfiltered(raw: Row, q: nat, f: nat, above: Row, channels: nat, n: nat): (r: Row)
    requires f <= 4 && channels > 0 && n <= |above|
    ensures |r| == n
  {
    if n == 0 then []
    else
      var row := Unfiltered(raw, q, f, above, channels, n - 1);
      row + [Stored(f, At(raw, q + n - 1), Left(row, n - 1, channels), above[n - 1], Left(above, n - 1, channels))]
  }

  lemma StoredInverts(f: nat, x: Byte, a: Byte, b: Byte, c: Byte)
    requires f <= 4
    ensures Stored(f, Some(Filtered(f, x, a, b, c)), a, b, c) == x
  {
    hide Paeth;
    var p: Byte := match f case 0 => 0 case 1 => a case 2 => b case 3 => (a + b) / 2 case 4 => Paeth(a, b, c);
    BackAgain(x, p);
  }

  lemma BackAgain(x: Byte, p: Byte)
    ensures ((x - p) % 256 + p) % 256 == x
  {
    if x >= p {
      assert (x - p) % 256 == x - p;
    } else {
      assert (x - p) % 256 == x - p + 256;
    }
  }

  /**
   * What the decoder leaves at each place of a row, filter by filter: the raw byte, or that and what the filter takes
   * from the bytes `channels` to the left, above, and above that one, modulo 256; where a row begins they are 0. A raw
   * byte that is missing leaves 0.
   */
  lemma {:induction false} UnfilteredAt(raw: Row, q: nat, f: nat, above: Row, channels: nat, n: nat, i: nat)
    requires f <= 4 && channels > 0 && i < n <= |above|
    ensures var row := Unfiltered(raw, q, f, above, channels, n);
      var left: int, up: int := if i < channels then 0 else row[i - channels], above[i];
      var upperLeft: int := if i < channels then 0 else above[i - channels];
      if q + i >= |raw| then row[i] == 0
      else
        var x: int := raw[q + i];
        && (f == 0 ==> row[i] == x)
        && (f == 1 ==> row[i] == (x + left) % 256)
        && (f == 2 ==> row[i] == (x + up) % 256)
        && (f == 3 ==> row[i] == (x + (left + up) / 2) % 256)
        && (f == 4 ==> row[i] == (x + Paeth(left, up, upperLeft)) % 256)
    decreases n
  {
    hide Paeth;
    if i < n - 1 { UnfilteredAt(raw, q, f, above, channels, n - 1, i); }
  }

  /** Unfiltering gives back the row that was filtered, for every filter, channel count and row above. */
  lemma {:induction false} UnfilterInverts(raw: Row, q: nat, f: nat, row: Row, above: Row, channels: nat, n: nat)
    requires f <= 4 && |above| == |row| && channels > 0 && n <= |row|
    requires q + |row| <= |raw| && raw[q..q + |row|] == FilterRow(f, row, above, channels)
    ensures Unfiltered(raw, q, f, above, channels, n) == row[..n]
    decreases n
  {
    hide Stored, Predict, Filtered;
    if n > 0 {
      var i := n - 1;
      UnfilterInverts(raw, q, f, row, above, channels, i);
      assert raw[q + i] == raw[q..q + |row|][i];
      assert Left(row[..i], i, channels) == Left(row, i, channels);
      StoredInverts(f, row[i], Left(row, i, channels), above[i], Left(above, i, channels));
      assert row[..n] == row[..i] + [row[i]];
    }
  }

  // ---------- whole images ----------

  function Zeros(n: nat): (r: Row)
    ensures |r| == n
  {
    seq(n, _ => 0)
  }

  predicate Rectangular(rows: seq<Row>, stride: nat) {
    rows != [] ==> |rows[0]| == stride && Rectangular(rows[1..], stride)
  }

  predicate FilterChoice(filters: seq<nat>) {
    filters != [] ==> filters[0] <= 4 && FilterChoice(filters[1..])
  }

  /** The raw data of an image: each row behind its filter number, filtered against the row above. */
  function FilteredImage(rows: seq<Row>, filters: seq<nat>, above: Row, channels: nat): Row
    requires |filters| == |rows| && FilterChoice(filters) && Rectangular(rows, |above|) && channels > 0
  {
    if rows == [] then []
    else
      [filters[0]] + FilterRow(filters[0], rows[0], above, channels)
      + FilteredImage(rows[1..], filters[1..], rows[0], channels)
  }

  /** The decoder's rows from raw offset `q` on. A bad filter number is only noticed in a row that has a byte. */
  function DecodedRows(raw: Row, q: nat, height: nat, above: Row, channels: nat): Result<seq<Row>, PngError>
    requires channels > 0
    decreases height
  {
    if height == 0 then Ok([])
    else if |above| == 0 then
      match DecodedRows(raw, q + 1, height - 1, above, channels)
      case Err(e) => Err(e)
      case Ok(rows) => Ok([[]] + rows)
    else if q >= |raw| || raw[q] > 4 then Err(BadFilter)
    else
      var row := Unfiltered(raw, q + 1, raw[q], above, channels, |above|);
      match DecodedRows(raw, q + 1 + |above|, height - 1, row, channels)
      case Err(e) => Err(e)
      case Ok(rows) => Ok([row] + rows)
  }

  /** Rows of `step` bytes from `p` on, each with the number of one of the five filters in front. */
  predicate EachNumbered(raw: Row, p: nat, step: nat, height: nat)
    decreases height
  {
    height > 0 ==> p < |raw| && raw[p] <= 4 && EachNumbered(raw, p + step, step, height - 1)
  }

  /** The rows decode if and only if each begins with the number of one of the five filters. */
  lemma {:induction false} DecodesIff(raw: Row, q: nat, height: nat, above: Row, channels: nat)
    requires channels > 0 && |above| > 0
    ensures DecodedRows(raw, q, height, above, channels).Ok? <==> EachNumbered(raw, q, 1 + |above|, height)
    ensures DecodedRows(raw, q, height, above, channels).Err? ==>
        DecodedRows(raw, q, height, above, channels).error == BadFilter
    decreases height
  {
    hide Unfiltered;
    if height > 0 && q < |raw| && raw[q] <= 4 {
      var row := Unfiltered(raw, q + 1, raw[q], above, channels, |above|);
      DecodesIff(raw, q + 1 + |above|, height - 1, row, channels);
    }
  }

  lemma {:induction false} DecodeInvertsFilters(raw: Row, q: nat, rows: seq<Row>, filters: seq<nat>, above: Row,
      channels: nat)
    requires |filters| == |rows| && FilterChoice(filters) && Rectangular(rows, |above|) && channels > 0
    requires q <= |raw| && raw[q..] == FilteredImage(rows, filters, above, channels)
    ensures DecodedRows(raw, q, |rows|, above, channels) == Ok(rows)
    decreases |rows|
  {
    hide FilterRow, Unfiltered;
    if rows != [] {
      var filtered := FilterRow(filters[0], rows[0], above, channels);
      var rest := FilteredImage(rows[1..], filters[1..], rows[0], channels);
      RawLayout(raw, q, filters[0], filtered, rest);
      if |above| > 0 {
        UnfilterInverts(raw, q + 1, filters[0], rows[0], above, channels, |above|);
        assert rows[0][..|above|] == rows[0];
      } else {
        assert rows[0] == [] == above;
      }
      DecodeInvertsFilters(raw, q + 1 + |above|, rows[1..], filters[1..], rows[0], channels);
      assert [rows[0]] + rows[1..] == rows;
    }
  }

  lemma RawLayout(raw: Row, q: nat, f: Byte, filtered: Row, rest: Row)
    requires q <= |raw| && raw[q..] == [f] + filtered + rest
    ensures q + 1 + |filtered| <= |raw| && raw[q] == f
    ensures raw[q + 1..q + 1 + |filtered|] == filtered && raw[q + 1 + |filtered|..] == rest
  {
    var s := raw[q..];
    assert raw[q] == s[0];
    assert raw[q + 1..q + 1 + |filtered|] == s[1..1 + |filtered|];
    assert raw[q + 1 + |filtered|..] == s[1 + |filtered|..];
  }

  /**
   * Every image, channel count and choice of one of the five filters per row: decoding the filtered rows gives it
   * back.
   */
  lemma UnfilteringInvertsFiltering(rows: seq<Row>, filters: seq<nat>, stride: nat, channels: nat)
    requires |filters| == |rows| && FilterChoice(filters) && Rectangular(rows, stride) && channels > 0
    ensures DecodedRows(FilteredImage(rows, filters, Zeros(stride), channels), 0, |rows|, Zeros(stride), channels)
        == Ok(rows)
  {
    var raw := FilteredImage(rows, filters, Zeros(stride), channels);
    assert raw[0..] == raw;
    DecodeInvertsFilters(raw, 0, rows, filters, Zeros(stride), channels);
  }

  // ---------- pixels ----------

  /** One pixel as red, green, blue and alpha; an image without alpha is opaque. */
  function Pixel(row: Row, x: nat, channels: nat): (p: Row)
    requires (channels == 3 || channels == 4) && x * channels + channels <= |row|
    ensures |p| == 4
  {
    var i := x * channels;
    [row[i], row[i + 1], row[i + 2], if channels == 4 then row[i + 3] else 255]
  }

  function RowPixels(row: Row, channels: nat, n: nat): (p: Row)
    requires (channels == 3 || channels == 4) && n * channels <= |row|
    ensures |p| == 4 * n
  {
    if n == 0 then []
    else
      assert (n - 1) * channels + channels == n * channels;
      RowPixels(row, channels, n - 1) + Pixel(row, n - 1, channels)
  }

  function Pixels(rows: seq<Row>, width: nat, channels: nat): (p: Row)
    requires (channels == 3 || channels == 4) && Rectangular(rows, width * channels)
  {
    if rows == [] then [] else RowPixels(rows[0], channels, width) + Pixels(rows[1..], width, channels)
  }

  /** Where each colour of each pixel lies in the decoded data, and where it came from. */
  lemma {:induction false} PixelBytes(rows: seq<Row>, width: nat, channels: nat, x: nat, y: nat)
    requires (channels == 3 || channels == 4) && Rectangular(rows, width * channels) && x < width && y < |rows|
    ensures |rows[y]| == width * channels && x * channels + channels <= width * channels
    ensures var data, at, from := Pixels(rows, width, channels), 4 * (y * width + x), x * channels;
      && 0 <= at && at + 4 <= |data|
      && data[at] == rows[y][from] && data[at + 1] == rows[y][from + 1] && data[at + 2] == rows[y][from + 2]
      && data[at + 3] == if channels == 4 then rows[y][from + 3] else 255
    decreases |rows|
  {
    hide RowPixels;
    var first, more := RowPixels(rows[0], channels, width), Pixels(rows[1..], width, channels);
    if y == 0 {
      RowBytes(rows[0], channels, width, x);
    } else {
      PixelBytes(rows[1..], width, channels, x, y - 1);
      assert 4 * (y * width + x) == 4 * width + 4 * ((y - 1) * width + x);
    }
  }

  lemma {:induction false} RowBytes(row: Row, channels: nat, n: nat, x: nat)
    requires (channels == 3 || channels == 4) && n * channels <= |row| && x < n
    ensures x * channels + channels <= n * channels
    ensures var p, from := RowPixels(row, channels, n), x * channels;
      && p[4 * x] == row[from] && p[4 * x + 1] == row[from + 1] && p[4 * x + 2] == row[from + 2]
      && p[4 * x + 3] == if channels == 4 then row[from + 3] else 255
    decreases n
  {
    assert (n - 1) * channels + channels == n * channels;
    if x < n - 1 { RowBytes(row, channels, n - 1, x); }
  }
}
