/**
  The PNG writer of generate-icons.js: big-endian words, chunks (section
  5.3 of the PNG Specification, 2nd ed.), the IHDR payload (section
  11.2.2), filtered scanlines (section 7.3) and the whole file (section
  5.2 signature, then IHDR, IDAT, IEND).  The zlib compressor is a
  parameter; a reader of chunks is the partner that every layout is proved
  against.
 */
module Png {
  import opened Wrappers
  import Crc

  const TwoTo32: int := 0x1_0000_0000

  /** A byte of a Node.js Buffer: an integer from 0 to 255. */
  type byte = x: int | 0 <= x < 0x100

  /** The same bytes as bit-vectors, as the CRC register consumes them. */
  function Bits(s: seq<byte>): (r: seq<bv8>)
    ensures |r| == |s|
  {
    seq(|s|, i requires 0 <= i < |s| => s[i] as bv8)
  }

  /** The eight-byte PNG signature. */
  const Signature: seq<byte> := [137, 80, 78, 71, 13, 10, 26, 10]

  /** The chunk types, as the ASCII bytes of "IHDR", "IDAT" and "IEND". */
  const IhdrType: seq<byte> := [0x49, 0x48, 0x44, 0x52]
  const IdatType: seq<byte> := [0x49, 0x44, 0x41, 0x54]
  const IendType: seq<byte> := [0x49, 0x45, 0x4E, 0x44]

  // ---------------------------------------------------------------------
  // Big-endian unsigned 32-bit words (Buffer.writeUInt32BE)

  /** The value of four bytes read most significant first. */
  function ReadBigEndian32(b: seq<byte>): (n: nat)
    requires |b| == 4
    ensures n < TwoTo32
  {
    ((b[0] as int * 0x100 + b[1]) * 0x100 + b[2]) * 0x100 + b[3]
  }

  lemma DivMod(n: nat)
    ensures n == n / 0x100 * 0x100 + n % 0x100
    ensures n % 0x100 < 0x100
  {
  }

  lemma DivModUnique(n: nat, q: nat, r: nat)
    requires r < 0x100 && n == q * 0x100 + r
    ensures n / 0x100 == q && n % 0x100 == r
  {
  }

  /** The four bytes of `n`, most significant first (writeUInt32BE); the reader recovers `n`. */
  function BigEndian32(n: nat): (b: seq<byte>)
    requires n < TwoTo32
    ensures |b| == 4
    ensures ReadBigEndian32(b) == n
  {
    var q1 := n / 0x100;
    var q2 := q1 / 0x100;
    var q3 := q2 / 0x100;
    DivMod(n); DivMod(q1); DivMod(q2);
    [q3, q2 % 0x100, q1 % 0x100, n % 0x100]
  }

  /** Four bytes are determined by their value: writing what was read gives them back. */
  lemma BigEndian32OfRead(b: seq<byte>)
    requires |b| == 4
    ensures BigEndian32(ReadBigEndian32(b)) == b
  {
    var n := ReadBigEndian32(b);
    var q2 := b[0] as int * 0x100 + b[1];
    var q1 := q2 * 0x100 + b[2] as int;
    DivModUnique(n, q1, b[3]);
    DivModUnique(q1, q2, b[2]);
    DivModUnique(q2, b[0], b[1]);
  }

  // ---------------------------------------------------------------------
  // Chunks

  /** A chunk as a reader sees it: its type bytes and its data. */
  datatype Chunk = Chunk(kind: seq<byte>, data: seq<byte>)

  /** The bytes of a chunk: the data length, the type, the data and the CRC of type and data. */
  function ChunkBytes(c: Chunk): (b: seq<byte>)
    requires |c.data| < TwoTo32
    ensures |b| == 8 + |c.kind| + |c.data|
  {
    BigEndian32(|c.data|) + c.kind + c.data + BigEndian32(Crc.Checksum(Bits(c.kind + c.data)) as nat)
  }

  /** Where each field of a chunk sits (section 5.3 of the PNG Specification). */
  lemma ChunkLayout(c: Chunk)
    requires |c.data| < TwoTo32
    ensures |ChunkBytes(c)| == 8 + |c.kind| + |c.data|
    ensures ReadBigEndian32(ChunkBytes(c)[..4]) == |c.data|
    ensures ChunkBytes(c)[4..4 + |c.kind|] == c.kind
    ensures ChunkBytes(c)[4 + |c.kind|..4 + |c.kind| + |c.data|] == c.data
    ensures ReadBigEndian32(ChunkBytes(c)[|ChunkBytes(c)| - 4..]) == Crc.Checksum(Bits(c.kind + c.data)) as nat
  {
    var bytes := ChunkBytes(c);
    assert bytes[..4] == BigEndian32(|c.data|);
    assert bytes[|bytes| - 4..] == BigEndian32(Crc.Checksum(Bits(c.kind + c.data)) as nat);
  }

  /**
    createChunk: the chunk's bytes, or `None` where writeUInt32BE throws a
    RangeError because the data has 2^32 bytes or more.
   */
  function CreateChunk(kind: seq<byte>, data: seq<byte>): (r: Option<seq<byte>>)
    ensures r.None? <==> |data| >= TwoTo32
  {
    if |data| >= TwoTo32 then None else Some(ChunkBytes(Chunk(kind, data)))
  }

  /** A chunk read from the front of some bytes, with the number of bytes it took. */
  datatype Parsed = Parsed(chunk: Chunk, size: nat)

  /**
    Reads one chunk with a four-byte type from the front of `bytes`: fails
    when the bytes run out or the stored CRC does not match type and data.
   */
  function ParseChunk(bytes: seq<byte>): (r: Option<Parsed>)
    ensures r.Some? ==> 12 <= r.value.size <= |bytes|
  {
    if |bytes| < 12 then None
    else
      var len := ReadBigEndian32(bytes[..4]);
      if |bytes| < 12 + len then None
      else
        var kind, data := bytes[4..8], bytes[8..8 + len];
        if ReadBigEndian32(bytes[8 + len..12 + len]) != Crc.Checksum(Bits(kind + data)) as nat then None
        else Some(Parsed(Chunk(kind, data), 12 + len))
  }

  /** Reads chunks until the bytes are used up; fails if any chunk fails. */
  function ParseChunks(bytes: seq<byte>): (r: Option<seq<Chunk>>)
    decreases |bytes|
  {
    if bytes == [] then Some([])
    else match ParseChunk(bytes)
      case None => None
      case Some(p) =>
        match ParseChunks(bytes[p.size..])
        case None => None
        case Some(rest) => Some([p.chunk] + rest)
  }

  /** Reads a PNG file: the signature, then chunks. */
  function ParsePng(bytes: seq<byte>): (r: Option<seq<Chunk>>)
    ensures r.Some? ==> |bytes| >= 8 && bytes[..8] == Signature
  {
    if |bytes| >= 8 && bytes[..8] == Signature then ParseChunks(bytes[8..]) else None
  }

  /** Reading a written chunk back gives its type and data, and its CRC checks. */
  lemma ChunkRoundTrip(c: Chunk, rest: seq<byte>)
    requires |c.kind| == 4
    requires |c.data| < TwoTo32
    ensures ParseChunk(ChunkBytes(c) + rest) == Some(Parsed(c, 12 + |c.data|))
  {
    var b := ChunkBytes(c);
    ChunkLayout(c);
    var bytes := b + rest;
    assert bytes[..4] == b[..4];
    assert bytes[4..8] == c.kind;
    assert bytes[8..8 + |c.data|] == c.data;
    assert bytes[8 + |c.data|..12 + |c.data|] == b[|b| - 4..];
  }

  /** A chunk that can be written and read back: a four-byte type and data shorter than 2^32 bytes. */
  predicate Writable(c: Chunk) {
    |c.kind| == 4 && |c.data| < TwoTo32
  }

  /** The bytes of chunks written one after another. */
  function Concat(cs: seq<Chunk>): (r: seq<byte>)
    requires forall i :: 0 <= i < |cs| ==> Writable(cs[i])
  {
    if cs == [] then []
    else
      assert Writable(cs[0]);
      ChunkBytes(cs[0]) + Concat(cs[1..])
  }

  /** Chunks written one after another are read back, in order. */
  lemma {:induction false} ChunksRoundTrip(cs: seq<Chunk>)
    requires forall i :: 0 <= i < |cs| ==> Writable(cs[i])
    ensures ParseChunks(Concat(cs)) == Some(cs)
    decreases |cs|
  {
    if cs != [] {
      var c := ChunkBytes(cs[0]);
      var tail := Concat(cs[1..]);
      ChunkRoundTrip(cs[0], tail);
      assert (c + tail)[|c|..] == tail;
      ChunksRoundTrip(cs[1..]);
      assert [cs[0]] + cs[1..] == cs;
    }
  }

  // ---------------------------------------------------------------------
  // The IHDR payload

  /**
    The 13-byte IHDR payload: width and height big-endian, bit depth 8,
    colour type 6 (RGBA), then compression, filter and interlace method 0
    (the bytes a zero-filled Buffer leaves unwritten).
   */
  function IhdrData(width: nat, height: nat): seq<byte>
    requires width < TwoTo32 && height < TwoTo32
  {
    BigEndian32(width) + BigEndian32(height) + [8, 6, 0, 0, 0]
  }

  /** The fields of the IHDR payload (section 11.2.2 of the PNG Specification). */
  lemma IhdrLayout(width: nat, height: nat)
    requires width < TwoTo32 && height < TwoTo32
    ensures |IhdrData(width, height)| == 13
    ensures ReadBigEndian32(IhdrData(width, height)[0..4]) == width
    ensures ReadBigEndian32(IhdrData(width, height)[4..8]) == height
    ensures IhdrData(width, height)[8] == 8 && IhdrData(width, height)[9] == 6
    ensures IhdrData(width, height)[10..] == [0, 0, 0]
  {
    var r := IhdrData(width, height);
    assert r[0..4] == BigEndian32(width);
    assert r[4..8] == BigEndian32(height);
  }

  // ---------------------------------------------------------------------
  // Scanlines

  /** Byte `i` of the pixel data; an index past its end reads as 0, as `undefined` stored into a Buffer does. */
  function ByteAt(rgba: seq<byte>, i: int): (b: byte)
    ensures 0 <= i < |rgba| ==> b == rgba[i]
    ensures !(0 <= i < |rgba|) ==> b == 0
  {
    if 0 <= i < |rgba| then rgba[i] else 0
  }

  /** `n` pixel bytes from index `start` on. */
  function Pixels(rgba: seq<byte>, start: int, n: nat): (r: seq<byte>)
    ensures |r| == n
  {
    if n == 0 then [] else Pixels(rgba, start, n - 1) + [ByteAt(rgba, start + n - 1)]
  }

  /** Pixel byte `k` is byte `start + k` of the data. */
  lemma {:induction false} PixelsAt(rgba: seq<byte>, start: int, n: nat, k: nat)
    requires k < n
    ensures Pixels(rgba, start, n)[k] == ByteAt(rgba, start + k)
  {
    if k < n - 1 {
      PixelsAt(rgba, start, n - 1, k);
    }
  }

  /** Row `y` of the raw image data: filter type 0 (None), then the row's RGBA bytes. */
  function Row(width: nat, y: nat, rgba: seq<byte>): seq<byte> {
    [0] + Pixels(rgba, 4 * (y * width), 4 * width)
  }

  /** The first `height` rows, one after another; they end where row `height` would start. */
  function Scanlines(width: nat, height: nat, rgba: seq<byte>): (raw: seq<byte>)
    ensures |raw| == RowOffset(width, height)
  {
    if height == 0 then [] else Scanlines(width, height - 1, rgba) + Row(width, height - 1, rgba)
  }

  /** Where row `y` starts: the sizes of the rows before it, added up. */
  function RowOffset(width: nat, y: nat): nat {
    if y == 0 then 0 else RowOffset(width, y - 1) + 1 + 4 * width
  }

  /** The offset of row `y` is `y` rows of `1 + 4 * width` bytes. */
  lemma {:induction false} RowOffsetIsProduct(width: nat, y: nat)
    ensures RowOffset(width, y) == y * (1 + 4 * width)
  {
    if y > 0 {
      RowOffsetIsProduct(width, y - 1);
      assert (y - 1) * (1 + 4 * width) + (1 + 4 * width) == y * (1 + 4 * width);
    }
  }

  lemma {:induction false} RowOffsetMonotone(width: nat, y: nat, height: nat)
    requires y <= height
    ensures RowOffset(width, y) <= RowOffset(width, height)
    decreases height
  {
    if y < height {
      RowOffsetMonotone(width, y, height - 1);
    }
  }

  lemma SliceOfConcat<T>(a: seq<T>, b: seq<T>, i: nat, j: nat)
    requires i <= j <= |a| || |a| <= i <= j <= |a| + |b|
    ensures j <= |a| ==> (a + b)[i..j] == a[i..j]
    ensures |a| <= i ==> (a + b)[i..j] == b[i - |a|..j - |a|]
  {
    var ab := a + b;
    if j <= |a| {
      assert forall k | 0 <= k < j - i :: ab[i..j][k] == ab[i + k] == a[i + k] == a[i..j][k];
    }
    if |a| <= i {
      assert forall k | 0 <= k < j - i :: ab[i..j][k] == ab[i + k] == b[i + k - |a|] == b[i - |a|..j - |a|][k];
    }
  }

  /** Row `y` occupies the bytes from `RowOffset(width, y)` to `RowOffset(width, y + 1)`. */
  lemma {:induction false} RowAt(width: nat, height: nat, rgba: seq<byte>, y: nat)
    requires y < height
    ensures RowOffset(width, y + 1) <= |Scanlines(width, height, rgba)|
    ensures Scanlines(width, height, rgba)[RowOffset(width, y)..RowOffset(width, y + 1)] == Row(width, y, rgba)
  {
    var prefix, last := Scanlines(width, height - 1, rgba), Row(width, height - 1, rgba);
    if y < height - 1 {
      RowAt(width, height - 1, rgba, y);
      SliceOfConcat(prefix, last, RowOffset(width, y), RowOffset(width, y + 1));
    } else {
      SliceOfConcat(prefix, last, |prefix|, |prefix| + |last|);
    }
  }

  /** The raw data holds `height` rows of `1 + 4 * width` bytes each. */
  lemma ScanlinesSize(width: nat, height: nat, rgba: seq<byte>)
    ensures |Scanlines(width, height, rgba)| == height * (1 + 4 * width)
  {
    RowOffsetIsProduct(width, height);
  }

  /** Every row starts with the filter-type byte 0. */
  lemma FilterByte(width: nat, height: nat, rgba: seq<byte>, y: nat)
    requires y < height
    ensures y * (1 + 4 * width) < |Scanlines(width, height, rgba)|
    ensures Scanlines(width, height, rgba)[y * (1 + 4 * width)] == 0
  {
    RowAt(width, height, rgba, y);
    RowOffsetIsProduct(width, y);
    var s := Scanlines(width, height, rgba);
    assert s[RowOffset(width, y)] == s[RowOffset(width, y)..RowOffset(width, y + 1)][0];
  }

  lemma PixelIndexBound(width: nat, height: nat, y: nat, k: nat)
    requires y < height && k < 4 * width
    ensures 4 * (y * width) + k < 4 * (width * height)
  {
    assert (y + 1) * width <= height * width;
  }

  /** Byte `1 + k` of row `y`, counted from where the row starts, is pixel byte `4 * y * width + k`. */
  lemma RowByte(width: nat, height: nat, rgba: seq<byte>, y: nat, k: nat)
    requires y < height && k < 4 * width
    ensures RowOffset(width, y) + 1 + k < |Scanlines(width, height, rgba)|
    ensures Scanlines(width, height, rgba)[RowOffset(width, y) + 1 + k] == ByteAt(rgba, 4 * (y * width) + k)
  {
    var s, o := Scanlines(width, height, rgba), RowOffset(width, y);
    RowAt(width, height, rgba, y);
    assert RowOffset(width, y + 1) == o + 1 + 4 * width;
    PixelsAt(rgba, 4 * (y * width), 4 * width, k);
    assert s[o + 1 + k] == s[o..RowOffset(width, y + 1)][1 + k];
  }

  /**
    After its filter byte, row `y` holds pixel bytes `4 * y * width` up to
    `4 * (y + 1) * width` of the RGBA data, which must be that long for
    none of them to read as 0.
   */
  lemma PixelByte(width: nat, height: nat, rgba: seq<byte>, y: nat, k: nat)
    requires y < height && k < 4 * width
    ensures y * (1 + 4 * width) + 1 + k < |Scanlines(width, height, rgba)|
    ensures Scanlines(width, height, rgba)[y * (1 + 4 * width) + 1 + k] == ByteAt(rgba, 4 * (y * width) + k)
    ensures |rgba| >= 4 * (width * height) ==>
              4 * (y * width) + k < |rgba| &&
              Scanlines(width, height, rgba)[y * (1 + 4 * width) + 1 + k] == rgba[4 * (y * width) + k]
  {
    RowByte(width, height, rgba, y, k);
    RowOffsetIsProduct(width, y);
    var s, i := Scanlines(width, height, rgba), 4 * (y * width) + k;
    assert s[y * (1 + 4 * width) + 1 + k] == s[RowOffset(width, y) + 1 + k] == ByteAt(rgba, i);
    if |rgba| >= 4 * (width * height) {
      PixelIndexBound(width, height, y, k);
      assert i < |rgba|;
    }
  }

  /** Four more pixel bytes extend the run by those bytes. */
  lemma PixelsExtend(rgba: seq<byte>, start: int, n: nat)
    ensures Pixels(rgba, start, n + 4) == Pixels(rgba, start, n)
      + [ByteAt(rgba, start + n), ByteAt(rgba, start + n + 1), ByteAt(rgba, start + n + 2), ByteAt(rgba, start + n + 3)]
  {
    assert Pixels(rgba, start, n + 1) == Pixels(rgba, start, n) + [ByteAt(rgba, start + n)];
    assert Pixels(rgba, start, n + 2) == Pixels(rgba, start, n + 1) + [ByteAt(rgba, start + n + 1)];
    assert Pixels(rgba, start, n + 3) == Pixels(rgba, start, n + 2) + [ByteAt(rgba, start + n + 2)];
  }

  /** Writing the four bytes of pixel `x` of a row extends the row written so far by that pixel. */
  lemma PixelStep(rows: seq<byte>, rgba: seq<byte>, start: int, n: nat, idx: int, written: seq<byte>, now: seq<byte>)
    requires idx == start + n
    requires written == rows + ([0] + Pixels(rgba, start, n))
    requires now == written + [ByteAt(rgba, idx), ByteAt(rgba, idx + 1), ByteAt(rgba, idx + 2), ByteAt(rgba, idx + 3)]
    ensures now == rows + ([0] + Pixels(rgba, start, n + 4))
  {
    PixelsExtend(rgba, start, n);
  }

  /** `buffer[offset++] = b`: the written prefix grows by `b`. */
  method Put(buffer: array<byte>, offset: nat, b: byte) returns (next: nat)
    requires offset < buffer.Length
    modifies buffer
    ensures next == offset + 1
    ensures buffer[..next] == old(buffer[..offset]) + [b]
  {
    buffer[offset] := b;
    next := offset + 1;
  }

  /** The four writes of one pixel: its RGBA bytes are appended to the written prefix. */
  method PutPixel(buffer: array<byte>, offset: nat, rgba: seq<byte>, idx: int) returns (next: nat)
    requires offset + 4 <= buffer.Length
    modifies buffer
    ensures next == offset + 4
    ensures buffer[..next] == old(buffer[..offset]) + [ByteAt(rgba, idx), ByteAt(rgba, idx + 1), ByteAt(rgba, idx + 2), ByteAt(rgba, idx + 3)]
  {
    next := Put(buffer, offset, ByteAt(rgba, idx));
    next := Put(buffer, next, ByteAt(rgba, idx + 1));
    next := Put(buffer, next, ByteAt(rgba, idx + 2));
    next := Put(buffer, next, ByteAt(rgba, idx + 3));
  }

  /** One row: the filter byte 0, then the four bytes of each of its `width` pixels. */
  method PutRow(buffer: array<byte>, offset: nat, width: nat, y: nat, rgba: seq<byte>) returns (next: nat)
    requires offset + 1 + 4 * width <= buffer.Length
    modifies buffer
    ensures next == offset + 1 + 4 * width
    ensures buffer[..next] == old(buffer[..offset]) + Row(width, y, rgba)
  {
    ghost var before := buffer[..offset];
    next := Put(buffer, offset, 0);
    for x := 0 to width
      invariant next == offset + 1 + 4 * x
      invariant buffer[..next] == before + ([0] + Pixels(rgba, 4 * (y * width), 4 * x))
    {
      var idx := (y * width + x) * 4;
      ghost var written := buffer[..next];
      next := PutPixel(buffer, next, rgba, idx);
      PixelStep(before, rgba, 4 * (y * width), 4 * x, idx, written, buffer[..next]);
    }
  }

  /**
    The raw image data, written as the source does: a zero-filled buffer
    of `height * (1 + width * 4)` bytes filled row by row while `offset`
    advances.  The result is `Scanlines`, whose layout the lemmas above
    describe.
   */
  method RawScanlines(width: nat, height: nat, rgba: seq<byte>) returns (raw: seq<byte>, filled: nat)
    ensures raw == Scanlines(width, height, rgba)
    ensures filled == |raw| == height * (1 + width * 4)
  {
    RowOffsetIsProduct(width, height);
    var buffer := new byte[height * (1 + width * 4)](_ => 0);
    var offset := 0;
    for y := 0 to height
      invariant buffer.Length == RowOffset(width, height)
      invariant offset == RowOffset(width, y) <= buffer.Length
      invariant buffer[..offset] == Scanlines(width, y, rgba)
    {
      RowOffsetMonotone(width, y + 1, height);
      offset := PutRow(buffer, offset, width, y, rgba);
    }
    assert buffer[..] == buffer[..offset];
    raw, filled := buffer[..], offset;
  }

  // ---------------------------------------------------------------------
  // The file

  /** The chunks of an RGBA image of the given size, in file order. */
  function ImageChunks(width: nat, height: nat, rgba: seq<byte>, deflate: seq<byte> -> seq<byte>): (cs: seq<Chunk>)
    requires width < TwoTo32 && height < TwoTo32
  {
    [Chunk(IhdrType, IhdrData(width, height)), Chunk(IdatType, deflate(Scanlines(width, height, rgba))), Chunk(IendType, [])]
  }

  /** A signature followed by written chunks reads back as those chunks. */
  lemma PngRoundTrip(cs: seq<Chunk>)
    requires forall i :: 0 <= i < |cs| ==> Writable(cs[i])
    ensures ParsePng(Signature + Concat(cs)) == Some(cs)
  {
    ChunksRoundTrip(cs);
    var file := Signature + Concat(cs);
    assert file[..8] == Signature && file[8..] == Concat(cs);
  }

  /** Three chunks written one after another. */
  lemma ConcatThree(c1: Chunk, c2: Chunk, c3: Chunk)
    requires Writable(c1) && Writable(c2) && Writable(c3)
    ensures Concat([c1, c2, c3]) == ChunkBytes(c1) + ChunkBytes(c2) + ChunkBytes(c3)
  {
    var b1, b2, b3 := ChunkBytes(c1), ChunkBytes(c2), ChunkBytes(c3);
    assert [c3][1..] == [];
    assert Concat([c3]) == b3;
    assert [c2, c3][1..] == [c3];
    assert Concat([c2, c3]) == b2 + b3;
    assert [c1, c2, c3][1..] == [c2, c3];
    assert Concat([c1, c2, c3]) == b1 + (b2 + b3);
  }

  lemma Associate<T>(a: seq<T>, b: seq<T>, c: seq<T>, d: seq<T>)
    ensures a + b + c + d == a + (b + c + d)
  {
  }

  /** A signature and three written chunks read back as those three chunks. */
  lemma FileOfThree(c1: Chunk, c2: Chunk, c3: Chunk)
    requires Writable(c1) && Writable(c2) && Writable(c3)
    ensures ParsePng(Signature + ChunkBytes(c1) + ChunkBytes(c2) + ChunkBytes(c3)) == Some([c1, c2, c3])
  {
    ConcatThree(c1, c2, c3);
    Associate(Signature, ChunkBytes(c1), ChunkBytes(c2), ChunkBytes(c3));
    var cs := [c1, c2, c3];
    assert forall i :: 0 <= i < |cs| ==> Writable(cs[i]);
    PngRoundTrip(cs);
  }

  /** The bytes of an RGBA image's file: the signature, then its chunks. */
  function ImageFile(width: nat, height: nat, rgba: seq<byte>, deflate: seq<byte> -> seq<byte>): seq<byte>
    requires width < TwoTo32 && height < TwoTo32 && |deflate(Scanlines(width, height, rgba))| < TwoTo32
  {
    Signature + ChunkBytes(Chunk(IhdrType, IhdrData(width, height)))
      + ChunkBytes(Chunk(IdatType, deflate(Scanlines(width, height, rgba)))) + ChunkBytes(Chunk(IendType, []))
  }

  /** An image's file reads back as its three chunks. */
  lemma ImageFileParses(width: nat, height: nat, rgba: seq<byte>, deflate: seq<byte> -> seq<byte>)
    requires width < TwoTo32 && height < TwoTo32 && |deflate(Scanlines(width, height, rgba))| < TwoTo32
    ensures ParsePng(ImageFile(width, height, rgba, deflate)) == Some(ImageChunks(width, height, rgba, deflate))
  {
    var c1, c2, c3 := Chunk(IhdrType, IhdrData(width, height)), Chunk(IdatType, deflate(Scanlines(width, height, rgba))), Chunk(IendType, []);
    IhdrLayout(width, height);
    assert Writable(c1) && Writable(c2) && Writable(c3);
    FileOfThree(c1, c2, c3);
  }

  /**
    Writes a PNG file for an RGBA image: the signature, then the IHDR,
    IDAT (the compressed scanlines) and an empty IEND chunk.  It fails
    where writeUInt32BE throws: a width or height of 2^32 or more, or
    compressed data of 2^32 bytes or more.  Reading the file back gives
    exactly those three chunks, each with a matching CRC.
   */
  method CreatePng(width: nat, height: nat, rgba: seq<byte>, deflate: seq<byte> -> seq<byte>) returns (png: Option<seq<byte>>)
    ensures png.None? <==> width >= TwoTo32 || height >= TwoTo32 || |deflate(Scanlines(width, height, rgba))| >= TwoTo32
    ensures png.Some? ==> ParsePng(png.value) == Some(ImageChunks(width, height, rgba, deflate))
    ensures png.Some? ==> png.value[..8] == Signature
  {
    if width >= TwoTo32 || height >= TwoTo32 {
      return None;
    }
    var ihdr := CreateChunk(IhdrType, IhdrData(width, height)).value;
    var raw, _ := RawScanlines(width, height, rgba);
    var compressed := deflate(raw);
    if |compressed| >= TwoTo32 {
      return None;
    }
    var idat := CreateChunk(IdatType, compressed).value;
    var iend := CreateChunk(IendType, []).value;
    png := Some(Signature + ihdr + idat + iend);

    ImageFileParses(width, height, rgba, deflate);
  }
}
