/**
 PNG files: the two chunk writers of the repository, the RGB file writer, and an
 independent reader following sections 3.1, 3.2 and 4.1 of RFC 2083.
 */
module Png {
  import opened Bytes
  import opened Arithmetic
  import opened Wrappers
  import opened Crc

  // ------------------------------------------------------------------
  // Chunks
  // ------------------------------------------------------------------

  const SIGNATURE: Octets := [0x89, 0x50, 0x4E, 0x47, 0x0D, 0x0A, 0x1A, 0x0A]
  const IHDR: Octets := [0x49, 0x48, 0x44, 0x52]
  const IDAT: Octets := [0x49, 0x44, 0x41, 0x54]
  const IEND: Octets := [0x49, 0x45, 0x4E, 0x44]
  /** Bit depth 8, colour type 2, and the only defined compression, filter and interlace methods. */
  const RGB8: Octets := [8, 2, 0, 0, 0]

  /** `chunk` inside `write_png_rgb`: the CRC is carried from the tag into the data. */
  function QemuChunk(tag: Octets, data: Octets): Octets
    requires |data| < U32_LIMIT
  {
    var crc := Crc32(data, Crc32(tag, 0));
    PackU32(|data|) + tag + data + PackU32(crc)
  }

  /** `_chunk` of sample_tree.py: the CRC is taken over the concatenation. */
  function SampleChunk(tag: Octets, data: Octets): Octets
    requires |data| < U32_LIMIT
  {
    PackU32(|data|) + tag + data + PackU32(Crc32(tag + data, 0))
  }

  /** The two independent chunk writers produce the same octets for every tag and payload. */
  lemma ChunkWritersAgree(tag: Octets, data: Octets)
    requires |data| < U32_LIMIT
    ensures QemuChunk(tag, data) == SampleChunk(tag, data)
  {
    CrcIncremental(tag, data);
  }

  datatype Chunk = Chunk(tag: Octets, data: Octets)

  /** One chunk off the front of a file, or nothing when it is cut short or its CRC is wrong. */
  function ReadChunk(s: Octets): (r: Option<(Chunk, Octets)>)
    ensures r.Some? ==> |r.value.1| < |s|
  {
    if |s| < 12 then None
    else
      var n := UnpackU32(s[..4]);
      if |s| - 12 < n then None
      else
        var tag, data := s[4..8], s[8..8 + n];
        if UnpackU32(s[8 + n..12 + n]) != Crc32(tag + data, 0) then None
        else Some((Chunk(tag, data), s[12 + n..]))
  }

  function ReadChunks(s: Octets): Option<seq<Chunk>>
    decreases |s|
  {
    if s == [] then Some([])
    else
      match ReadChunk(s)
      case None => None
      case Some((first, rest)) =>
        match ReadChunks(rest)
        case None => None
        case Some(more) => Some([first] + more)
  }

  lemma Parts<T>(a: seq<T>, b: seq<T>, c: seq<T>, d: seq<T>, rest: seq<T>)
    requires |a| == |b| == |d| == 4
    ensures var s := a + b + c + d + rest;
            |s| >= 12 + |c| && s[..4] == a && s[4..8] == b && s[8..8 + |c|] == c &&
            s[8 + |c|..12 + |c|] == d && s[12 + |c|..] == rest
  {
  }

  /** A chunk reader gets back exactly what either writer wrote. */
  lemma ReadChunkInverts(tag: Octets, data: Octets, rest: Octets)
    requires |tag| == 4 && |data| < U32_LIMIT
    ensures ReadChunk(QemuChunk(tag, data) + rest) == Some((Chunk(tag, data), rest))
  {
    ChunkWritersAgree(tag, data);
    Parts(PackU32(|data|), tag, data, PackU32(Crc32(tag + data, 0)), rest);
  }

  // ------------------------------------------------------------------
  // Scanlines
  // ------------------------------------------------------------------

  lemma LineFits(rgb: Octets, width: nat, height: nat, y: nat)
    requires |rgb| == width * height * 3 && y < height
    ensures 0 <= y * width * 3 <= (y + 1) * width * 3 <= |rgb|
    ensures (y + 1) * width * 3 == y * width * 3 + width * 3
  {
    MulMono(y + 1, height, width);
    MulMono(0, y, width);
    MulNext(y, width);
  }

  /** `b"".join(b"\x00" + rgb[y*width*3 : (y+1)*width*3] ...)` from row `y` on. */
  function Scanlines(rgb: Octets, width: nat, height: nat, y: nat): Octets
    requires |rgb| == width * height * 3 && y <= height
    decreases height - y
  {
    if y == height then []
    else
      LineFits(rgb, width, height, y);
      [0] + rgb[y * width * 3..(y + 1) * width * 3] + Scanlines(rgb, width, height, y + 1)
  }

  /** Undo filter type 0 on `height` scanlines; other filter types are not understood. */
  function Unfilter(raw: Octets, width: nat, height: nat): Option<Octets>
    decreases height
  {
    if height == 0 then (if raw == [] then Some([]) else None)
    else if |raw| < 1 + width * 3 || raw[0] != 0 then None
    else
      match Unfilter(raw[1 + width * 3..], width, height - 1)
      case None => None
      case Some(rest) => Some(raw[1..1 + width * 3] + rest)
  }

  lemma LineParts<T>(mark: T, line: seq<T>, more: seq<T>)
    ensures var raw := [mark] + line + more;
            |raw| >= 1 + |line| && raw[0] == mark && raw[1..1 + |line|] == line && raw[1 + |line|..] == more
  {
  }

  lemma SliceParts<T>(s: seq<T>, a: nat, b: nat)
    requires a <= b <= |s|
    ensures s[a..b] + s[b..] == s[a..]
  {
  }

  /** One line off the front. */
  lemma UnfilterLine(line: Octets, more: Octets, rest: Octets, width: nat, height: nat)
    requires |line| == width * 3 && Unfilter(more, width, height) == Some(rest)
    ensures Unfilter([0] + line + more, width, height + 1) == Some(line + rest)
  {
    LineParts(0 as Byte, line, more);
  }

  lemma {:induction false} UnfilterInverts(rgb: Octets, width: nat, height: nat, y: nat)
    requires |rgb| == width * height * 3 && y <= height
    ensures 0 <= y * width * 3 <= |rgb|
    ensures Unfilter(Scanlines(rgb, width, height, y), width, height - y) == Some(rgb[y * width * 3..])
    decreases height - y
  {
    MulMono(y, height, width);
    MulNat(y, width);
    if y == height {
      assert rgb[y * width * 3..] == [];
    } else {
      LineFits(rgb, width, height, y);
      UnfilterInverts(rgb, width, height, y + 1);
      var start, end := y * width * 3, (y + 1) * width * 3;
      UnfilterLine(rgb[start..end], Scanlines(rgb, width, height, y + 1), rgb[end..], width, height - y - 1);
      SliceParts(rgb, start, end);
    }
  }

  // ------------------------------------------------------------------
  // Files
  // ------------------------------------------------------------------

  datatype Written = File(bytes: Octets) | ValueError | StructError

  function Ihdr(width: nat, height: nat): (data: Octets)
    requires width < U32_LIMIT && height < U32_LIMIT
    ensures |data| == 13
  {
    PackU32(width) + PackU32(height) + RGB8
  }

  /** The octets handed to `write_bytes`. */
  function FileOf(ihdr: Octets, body: Octets): Octets
    requires |ihdr| < U32_LIMIT && |body| < U32_LIMIT
  {
    SIGNATURE + QemuChunk(IHDR, ihdr) + QemuChunk(IDAT, body) + QemuChunk(IEND, [])
  }

  /** `write_png_rgb`, with `zlib.compress(_, 9)` passed in; the bytes it writes or the exception it raises. */
  function WritePng(width: int, height: int, rgb: Octets, compress: Octets -> Octets): Written {
    if width < 1 || height < 1 then ValueError
    else if |rgb| != width * height * 3 then ValueError
    else
      var body := compress(Scanlines(rgb, width, height, 0));
      if width >= U32_LIMIT || height >= U32_LIMIT || |body| >= U32_LIMIT then StructError
      else File(FileOf(Ihdr(width, height), body))
  }

  datatype Image = Image(width: nat, height: nat, rgb: Octets)

  function DataOf(chunks: seq<Chunk>): Octets {
    if chunks == [] then []
    else (if chunks[0].tag == IDAT then chunks[0].data else []) + DataOf(chunks[1..])
  }

  /** IHDR first, the IDAT stream inflated and unfiltered, IEND last. */
  function DecodeChunks(chunks: seq<Chunk>, inflate: Octets -> Octets): Option<Image> {
    if |chunks| < 2 || chunks[0].tag != IHDR || |chunks[0].data| != 13 || chunks[0].data[8..] != RGB8
       || chunks[|chunks| - 1] != Chunk(IEND, [])
    then None
    else
      var width, height := UnpackU32(chunks[0].data[..4]), UnpackU32(chunks[0].data[4..8]);
      match Unfilter(inflate(DataOf(chunks)), width, height)
      case None => None
      case Some(rgb) => Some(Image(width, height, rgb))
  }

  /** An RGB8 reader for whole files. */
  function DecodePng(file: Octets, inflate: Octets -> Octets): Option<Image> {
    if |file| < 8 || file[..8] != SIGNATURE then None
    else
      match ReadChunks(file[8..])
      case None => None
      case Some(chunks) => DecodeChunks(chunks, inflate)
  }

  ghost predicate Inverse(compress: Octets -> Octets, inflate: Octets -> Octets) {
    forall raw :: inflate(compress(raw)) == raw
  }

  /** Octets that the chunk reader takes for chunk `c`, whatever follows them. */
  ghost predicate ReadsAs(s: Octets, c: Chunk) {
    forall rest :: ReadChunk(s + rest) == Some((c, rest))
  }

  lemma WrittenReadsAs(tag: Octets, data: Octets)
    requires |tag| == 4 && |data| < U32_LIMIT
    ensures ReadsAs(QemuChunk(tag, data), Chunk(tag, data))
  {
    forall rest {
      ReadChunkInverts(tag, data, rest);
    }
  }

  lemma ReadOneMore(x: Octets, a: Chunk, rest: Octets, chunks: seq<Chunk>)
    requires ReadsAs(x, a) && ReadChunks(rest) == Some(chunks)
    ensures ReadChunks(x + rest) == Some([a] + chunks)
  {
    assert ReadChunk(x + rest) == Some((a, rest));
  }

  lemma ReadThreeChunks(x: Octets, y: Octets, z: Octets, a: Chunk, b: Chunk, c: Chunk)
    requires ReadsAs(x, a) && ReadsAs(y, b) && ReadsAs(z, c)
    ensures ReadChunks(x + (y + (z + []))) == Some([a] + ([b] + ([c] + [])))
  {
    ReadOneMore(z, c, [], []);
    ReadOneMore(y, b, z + [], [c] + []);
    ReadOneMore(x, a, y + (z + []), [b] + ([c] + []));
  }

  /** A file: the signature, then the three chunks one after the other. */
  lemma FileParts<T>(sig: seq<T>, a: seq<T>, b: seq<T>, c: seq<T>)
    requires |sig| == 8
    ensures var s := sig + a + b + c;
            |s| >= 8 && s[..8] == sig && s[8..] == a + (b + (c + []))
  {
  }

  lemma DataOfThree(ihdr: Octets, body: Octets)
    ensures DataOf([Chunk(IHDR, ihdr), Chunk(IDAT, body), Chunk(IEND, [])]) == body
  {
    var chunks := [Chunk(IHDR, ihdr), Chunk(IDAT, body), Chunk(IEND, [])];
    assert IHDR[1] != IDAT[1] && IEND[1] != IDAT[1];
    assert chunks[1..] == [Chunk(IDAT, body), Chunk(IEND, [])] && chunks[2..] == [Chunk(IEND, [])];
    assert DataOf(chunks[2..]) == [];
    assert chunks[1..][1..] == chunks[2..];
  }

  lemma ReadIhdr(width: nat, height: nat)
    requires width < U32_LIMIT && height < U32_LIMIT
    ensures var ihdr := Ihdr(width, height);
            UnpackU32(ihdr[..4]) == width && UnpackU32(ihdr[4..8]) == height && ihdr[8..] == RGB8
  {
    var ihdr := Ihdr(width, height);
    assert ihdr[..4] == PackU32(width) && ihdr[4..8] == PackU32(height);
  }

  lemma DecodeThree(width: nat, height: nat, rgb: Octets, body: Octets, inflate: Octets -> Octets)
    requires width < U32_LIMIT && height < U32_LIMIT && |rgb| == width * height * 3
    requires inflate(body) == Scanlines(rgb, width, height, 0)
    ensures DecodeChunks([Chunk(IHDR, Ihdr(width, height)), Chunk(IDAT, body), Chunk(IEND, [])], inflate)
            == Some(Image(width, height, rgb))
  {
    DataOfThree(Ihdr(width, height), body);
    ReadIhdr(width, height);
    UnfilterInverts(rgb, width, height, 0);
    assert rgb[0..] == rgb;
  }

  lemma DecodeFile(x: Octets, y: Octets, z: Octets, a: Chunk, b: Chunk, c: Chunk, inflate: Octets -> Octets)
    requires ReadsAs(x, a) && ReadsAs(y, b) && ReadsAs(z, c)
    ensures DecodePng(SIGNATURE + x + y + z, inflate) == DecodeChunks([a, b, c], inflate)
  {
    ReadThreeChunks(x, y, z, a, b, c);
    assert [a] + ([b] + ([c] + [])) == [a, b, c];
    FileParts(SIGNATURE, x, y, z);
  }

  lemma FileDecodes(ihdr: Octets, body: Octets, inflate: Octets -> Octets)
    requires |ihdr| < U32_LIMIT && |body| < U32_LIMIT
    ensures DecodePng(FileOf(ihdr, body), inflate)
            == DecodeChunks([Chunk(IHDR, ihdr), Chunk(IDAT, body), Chunk(IEND, [])], inflate)
  {
    WrittenReadsAs(IHDR, ihdr);
    WrittenReadsAs(IDAT, body);
    WrittenReadsAs(IEND, []);
    DecodeFile(QemuChunk(IHDR, ihdr), QemuChunk(IDAT, body), QemuChunk(IEND, []),
               Chunk(IHDR, ihdr), Chunk(IDAT, body), Chunk(IEND, []), inflate);
  }

  /** Reading back a written file gives the size and every pixel. */
  lemma PngRoundTrip(width: int, height: int, rgb: Octets, compress: Octets -> Octets, inflate: Octets -> Octets)
    requires Inverse(compress, inflate)
    ensures var w := WritePng(width, height, rgb, compress);
            w.File? ==> width > 0 && height > 0 && DecodePng(w.bytes, inflate) == Some(Image(width, height, rgb))
  {
    if WritePng(width, height, rgb, compress).File? {
      var body := compress(Scanlines(rgb, width, height, 0));
      FileDecodes(Ihdr(width, height), body, inflate);
      DecodeThree(width, height, rgb, body, inflate);
    }
  }

  lemma TagsAreNames()
    ensures IHDR == Ascii("IHDR") && IDAT == Ascii("IDAT") && IEND == Ascii("IEND")
    ensures SIGNATURE == [137] + Ascii("PNG") + [13, 10, 26, 10]
  {
  }

  /**
   A file as sections 3.1, 3.2, 4.1 and 12.11 of RFC 2083 lay it out: the signature,
   an IHDR chunk for eight-bit RGB with the standard methods and no interlace, one
   IDAT chunk and the empty IEND chunk.
   */
  lemma FileLayout(width: nat, height: nat, body: Octets)
    requires width < U32_LIMIT && height < U32_LIMIT && |body| < U32_LIMIT
    ensures FileOf(Ihdr(width, height), body)
            == ([137] + Ascii("PNG") + [13, 10, 26, 10])
               + SampleChunk(Ascii("IHDR"), PackU32(width) + PackU32(height) + [8, 2, 0, 0, 0])
               + SampleChunk(Ascii("IDAT"), body)
               + SampleChunk(Ascii("IEND"), [])
  {
    TagsAreNames();
    ChunkWritersAgree(IHDR, Ihdr(width, height));
    ChunkWritersAgree(IDAT, body);
    ChunkWritersAgree(IEND, []);
  }
}
