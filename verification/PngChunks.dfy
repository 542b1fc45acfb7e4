/** The chunk layout of section 3.2 of RFC 2083: how the icon writer writes chunks and how its decoder walks them. */
module PngChunks {
  import opened Basics
  import opened PngFilters
  import Crc32

  datatype Chunk = Chunk(kind: Row, data: Row)

  const IHDR: Row := [73, 72, 68, 82]
  const IDAT: Row := [73, 68, 65, 84]
  const IEND: Row := [73, 69, 78, 68]

  function BigEndian(n: nat): (r: Row)
    requires n < 0x1_0000_0000
    ensures |r| == 4
  {
    var upper := n / 256;
    [upper / 256 / 256, upper / 256 % 256, upper % 256, n % 256]
  }

  function ReadBigEndian(buf: Row, p: nat): Option<nat> {
    if p + 4 > |buf| then None
    else Some(((buf[p] as int * 256 + buf[p + 1]) * 256 + buf[p + 2]) * 256 + buf[p + 3])
  }

  lemma ReadWritten(n: nat, rest: Row)
    requires n < 0x1_0000_0000
    ensures ReadBigEndian(BigEndian(n) + rest, 0) == Some(n)
  {
    var b := BigEndian(n) + rest;
    var upper := n / 256;
    assert b[0] == upper / 256 / 256 && b[1] == upper / 256 % 256 && b[2] == upper % 256 && b[3] == n % 256;
  }

  function AsBits(bytes: Row): Crc32.Bytes {
    seq(|bytes|, i requires 0 <= i < |bytes| => bytes[i] as bv8)
  }

  predicate Writable(c: Chunk) {
    |c.kind| == 4 && (forall k :: 0 <= k < 4 ==> c.kind[k] < 128) && |c.data| < 0x1_0000_0000
  }

  predicate AllWritable(cs: seq<Chunk>) { cs != [] ==> Writable(cs[0]) && AllWritable(cs[1..]) }

  /** Length, type, data and the checksum of type and data. */
  function WriteChunk(c: Chunk): (r: Row)
    requires Writable(c)
    ensures |r| == 12 + |c.data|
  {
    BigEndian(|c.data|) + c.kind + c.data + BigEndian(Crc32.Checksum(AsBits(c.kind + c.data)) as int)
  }

  /** The writer as the host runs it: the checksum comes from the table. */
  method WriteOneChunk(table: seq<bv32>, c: Chunk) returns (r: Row)
    requires Writable(c) && Crc32.IsTable(table)
    ensures r == WriteChunk(c)
  {
    var body := c.kind + c.data;
    var crc := Crc32.Crc32(table, AsBits(body));
    r := BigEndian(|c.data|) + body + BigEndian(crc as int);
    assert BigEndian(|c.data|) + (c.kind + c.data) == BigEndian(|c.data|) + c.kind + c.data;
  }

  function WriteChunks(cs: seq<Chunk>): Row
    requires AllWritable(cs)
  {
    if cs == [] then [] else WriteChunk(cs[0]) + WriteChunks(cs[1..])
  }

  /** The type of a chunk as its four ASCII letters. */
  lemma TypesAreTheirNames()
    ensures IHDR == Letters("IHDR") && IDAT == Letters("IDAT") && IEND == Letters("IEND")
  {
  }

  function Letters(name: string): Row { seq(|name|, i requires 0 <= i < |name| => (name[i] as int % 256) as Byte) }

  /** A slice as the host takes it: cut off at the end of the buffer. */
  function Slice(buf: Row, from: nat, to: nat): Row
    requires from <= to
  {
    if from >= |buf| then [] else if to > |buf| then buf[from..] else buf[from..to]
  }

  /** Type bytes are read as ASCII: the high bit is dropped. */
  function Ascii(bytes: Row): (r: Row)
    ensures |r| == |bytes|
  {
    seq(|bytes|, i requires 0 <= i < |bytes| => bytes[i] % 128)
  }

  function ChunkAt(buf: Row, p: nat, length: nat): Chunk {
    Chunk(Ascii(Slice(buf, p + 4, p + 8)), Slice(buf, p + 8, p + 8 + length))
  }

  /** The chunks from offset `p` on, up to the end or the first IEND. The offset advances by at least 12. */
  function Walk(buf: Row, p: nat): Result<seq<Chunk>, PngError>
    decreases |buf| - p
  {
    if p >= |buf| then Ok([])
    else
      match ReadBigEndian(buf, p)
      case None => Err(OutOfRange)
      case Some(length) =>
        var c := ChunkAt(buf, p, length);
        if c.kind == IEND then Ok([c])
        else
          match Walk(buf, p + 12 + length)
          case Err(e) => Err(e)
          case Ok(more) => Ok([c] + more)
  }

  function UpToEnd(cs: seq<Chunk>): seq<Chunk> {
    if cs == [] then [] else if cs[0].kind == IEND then [cs[0]] else [cs[0]] + UpToEnd(cs[1..])
  }

  /** Consecutive pieces of a suffix lie where their lengths put them. */
  lemma Pieces<T>(buf: seq<T>, p: nat, a: seq<T>, b: seq<T>, c: seq<T>, d: seq<T>, rest: seq<T>)
    requires p <= |buf| && buf[p..] == a + b + c + d + rest
    ensures p + |a| + |b| + |c| + |d| <= |buf| && buf[p..] == a + (b + c + d + rest)
    ensures buf[p + |a|..p + |a| + |b|] == b && buf[p + |a| + |b|..p + |a| + |b| + |c|] == c
    ensures buf[p + |a| + |b| + |c| + |d|..] == rest
  {
    assert a + (b + c + d + rest) == a + b + c + d + rest;
    PieceAt(buf, p, a, b, c + d + rest);
    assert b + (c + d + rest) == b + c + d + rest;
    PieceAt(buf, p + |a|, b, c, d + rest);
    assert c + (d + rest) == c + d + rest;
    PieceAt(buf, p + |a| + |b|, c, d, rest);
    PieceAt(buf, p + |a| + |b| + |c|, d, rest, []);
  }

  /** Behind the first piece of a suffix comes the second. */
  lemma PieceAt<T>(buf: seq<T>, p: nat, a: seq<T>, b: seq<T>, rest: seq<T>)
    requires p <= |buf| && buf[p..] == a + (b + rest)
    ensures p + |a| + |b| <= |buf|
    ensures buf[p + |a|..] == b + rest && buf[p + |a|..p + |a| + |b|] == b
  {
    assert buf[p + |a|..] == buf[p..][|a|..];
    assert buf[p + |a|..p + |a| + |b|] == buf[p + |a|..][..|b|];
  }

  lemma LengthReads(buf: Row, p: nat, n: nat, rest: Row)
    requires n < 0x1_0000_0000 && p <= |buf| && buf[p..] == BigEndian(n) + rest
    ensures ReadBigEndian(buf, p) == Some(n)
  {
    hide BigEndian;
    var s := buf[p..];
    ReadWritten(n, rest);
    assert s[0] == buf[p] && s[1] == buf[p + 1] && s[2] == buf[p + 2] && s[3] == buf[p + 3];
  }

  lemma ChunkReads(buf: Row, p: nat, c: Chunk, rest: Row)
    requires Writable(c) && p <= |buf| && buf[p..] == WriteChunk(c) + rest
    ensures ReadBigEndian(buf, p) == Some(|c.data|) && ChunkAt(buf, p, |c.data|) == c
    ensures p + 12 + |c.data| <= |buf| && buf[p + 12 + |c.data|..] == rest
  {
    hide BigEndian, ReadBigEndian;
    var n := |c.data|;
    var crc := BigEndian(Crc32.Checksum(AsBits(c.kind + c.data)) as int);
    Pieces(buf, p, BigEndian(n), c.kind, c.data, crc, rest);
    LengthReads(buf, p, n, c.kind + c.data + crc + rest);
    assert Ascii(c.kind) == c.kind;
  }

  /** Walking what was written gives the written types and data back, in order, up to the first IEND. */
  lemma {:induction false} WalkReadsWritten(buf: Row, p: nat, cs: seq<Chunk>)
    requires AllWritable(cs) && p <= |buf| && buf[p..] == WriteChunks(cs)
    ensures Walk(buf, p) == Ok(UpToEnd(cs))
    decreases |cs|
  {
    hide WriteChunk, ReadBigEndian, ChunkAt, Writable;
    if cs != [] {
      ChunkReads(buf, p, cs[0], WriteChunks(cs[1..]));
      if cs[0].kind != IEND {
        WalkReadsWritten(buf, p + 12 + |cs[0].data|, cs[1..]);
      }
    }
  }
}
