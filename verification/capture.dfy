/**
 The capture end to end, from the ServerInit message to the bytes of the PNG
 file: `_pixels_to_rgb` and the part of `vnc_framebuffer_png` after the handshake.
 */
module Capturing {
  import opened Bytes
  import opened Arithmetic
  import opened Sockets
  import opened Wrappers
  import opened Framebuffer
  import opened Painting
  import opened Coverage
  import opened Server
  import Crc
  import Png

  // ------------------------------------------------------------------
  // Pixel words
  // ------------------------------------------------------------------

  /** The four octets of a pixel word in the byte order the server announced. */
  function WordOctets(word: nat, bigendian: bool): (b: Octets)
    requires word < U32_LIMIT
    ensures |b| == 4
  {
    if bigendian then PackU32(word) else Swap32(PackU32(word))
  }

  /** The pixel word in four octets. */
  function WordIn(four: Octets, bigendian: bool): (word: nat)
    requires |four| == 4
    ensures word < U32_LIMIT
  {
    UnpackU32(if bigendian then four else Swap32(four))
  }

  /** `struct.unpack_from(endian + "I", pixels, i * 4)`. */
  function Word(pixels: Octets, i: nat, bigendian: bool): (word: nat)
    requires i * 4 + 4 <= |pixels|
    ensures word < U32_LIMIT
  {
    WordIn(pixels[i * 4..i * 4 + 4], bigendian)
  }

  /** `(pix >> shift) & 0xFF`. */
  function Channel(word: nat, shift: nat): Byte {
    word / Pow2(shift) % 0x100
  }

  datatype Shifts = Shifts(red: nat, green: nat, blue: nat) {
    function Of(component: int): nat {
      if component == 0 then red else if component == 1 then green else blue
    }
  }

  /** The RGB octets of a list of pixel words. */
  function RgbOf(words: seq<nat>, shifts: Shifts): (rgb: Octets)
    ensures |rgb| == |words| * 3
  {
    if words == [] then []
    else
      var pix := words[|words| - 1];
      RgbOf(words[..|words| - 1], shifts)
      + [Channel(pix, shifts.red), Channel(pix, shifts.green), Channel(pix, shifts.blue)]
  }

  lemma {:induction false} RgbAt(words: seq<nat>, shifts: Shifts, i: nat, component: int)
    requires i < |words| && 0 <= component < 3
    ensures RgbOf(words, shifts)[i * 3 + component] == Channel(words[i], shifts.Of(component))
  {
    if i < |words| - 1 {
      RgbAt(words[..|words| - 1], shifts, i, component);
    }
  }

  function WordsOf(pixels: Octets, count: nat, bigendian: bool): (words: seq<nat>)
    requires count * 4 <= |pixels|
    ensures |words| == count
  {
    seq(count, i requires 0 <= i < count => Word(pixels, i, bigendian))
  }

  lemma RgbNext(pixels: Octets, i: nat, bigendian: bool, shifts: Shifts)
    requires i * 4 + 4 <= |pixels|
    ensures var pix := Word(pixels, i, bigendian);
            RgbOf(WordsOf(pixels, i + 1, bigendian), shifts)
            == RgbOf(WordsOf(pixels, i, bigendian), shifts)
               + [Channel(pix, shifts.red), Channel(pix, shifts.green), Channel(pix, shifts.blue)]
  {
    assert WordsOf(pixels, i + 1, bigendian)[..i] == WordsOf(pixels, i, bigendian);
  }

  /** The three assignments of one turn. */
  method WritePixel(rgb: array<Byte>, i: nat, pix: nat, shifts: Shifts)
    requires (i + 1) * 3 <= rgb.Length
    modifies rgb
    ensures rgb[..(i + 1) * 3] == old(rgb[..i * 3])
                                  + [Channel(pix, shifts.red), Channel(pix, shifts.green), Channel(pix, shifts.blue)]
  {
    rgb[i * 3] := Channel(pix, shifts.red);
    rgb[i * 3 + 1] := Channel(pix, shifts.green);
    rgb[i * 3 + 2] := Channel(pix, shifts.blue);
  }

  /** `_pixels_to_rgb`: `None` is the struct.error of a buffer that is too short. */
  method PixelsToRgb(pixels: Octets, width: nat, height: nat, bigendian: bool, shifts: Shifts)
    returns (r: Option<Octets>)
    ensures r.Some? <==> width * height * 4 <= |pixels|
    ensures width * height * 4 <= |pixels| ==>
              0 <= width * height && r == Some(RgbOf(WordsOf(pixels, width * height, bigendian), shifts))
  {
    MulNat(width, height);
    var count := width * height;
    var rgb := new Byte[count * 3];
    for i := 0 to count
      invariant i * 4 <= |pixels|
      invariant rgb[..i * 3] == RgbOf(WordsOf(pixels, i, bigendian), shifts)
    {
      if i * 4 + 4 > |pixels| {
        return None;
      }
      var pix := Word(pixels, i, bigendian);
      RgbNext(pixels, i, bigendian, shifts);
      WritePixel(rgb, i, pix, shifts);
    }
    assert rgb[..] == rgb[..count * 3];
    return Some(rgb[..]);
  }

  // ------------------------------------------------------------------
  // The server's framebuffer as words
  // ------------------------------------------------------------------

  ghost predicate AllWords(words: seq<nat>) {
    forall i :: 0 <= i < |words| ==> words[i] < U32_LIMIT
  }

  ghost function FramebufferOf(words: seq<nat>, bigendian: bool): (fb: Octets)
    requires AllWords(words)
    ensures |fb| == |words| * 4
  {
    if words == [] then []
    else FramebufferOf(words[..|words| - 1], bigendian) + WordOctets(words[|words| - 1], bigendian)
  }

  lemma WordInOctets(word: nat, bigendian: bool)
    requires word < U32_LIMIT
    ensures WordIn(WordOctets(word, bigendian), bigendian) == word
  {
    var b := PackU32(word);
    assert Swap32(Swap32(b)) == b;
  }

  /** A slice of four in front of the last four, and the last four. */
  lemma SliceOfConcat<T>(front: seq<T>, four: seq<T>, i: nat)
    requires |four| == 4 && i * 4 <= |front| && (i * 4 == |front| || i * 4 + 4 <= |front|)
    ensures (front + four)[i * 4..i * 4 + 4] == if i * 4 == |front| then four else front[i * 4..i * 4 + 4]
  {
  }

  lemma {:induction false} WordOfFramebuffer(words: seq<nat>, bigendian: bool, i: nat)
    requires AllWords(words) && i < |words|
    ensures Word(FramebufferOf(words, bigendian), i, bigendian) == words[i]
  {
    var n := |words| - 1;
    SliceOfConcat(FramebufferOf(words[..n], bigendian), WordOctets(words[n], bigendian), i);
    if i < n {
      WordOfFramebuffer(words[..n], bigendian, i);
    } else {
      WordInOctets(words[n], bigendian);
    }
  }

  /** Reading words back in the byte order they were written in gives the words, whichever order that is. */
  lemma {:induction false} WordsRoundTrip(words: seq<nat>, bigendian: bool)
    requires AllWords(words)
    ensures WordsOf(FramebufferOf(words, bigendian), |words|, bigendian) == words
  {
    forall i | 0 <= i < |words| {
      WordOfFramebuffer(words, bigendian, i);
    }
  }

  // ------------------------------------------------------------------
  // From ServerInit to the file
  // ------------------------------------------------------------------

  /** The fields of the 24-octet ServerInit header that the client uses (section 7.3.2 of RFC 6143). */
  datatype Init = Init(width: nat, height: nat, bpp: Byte, bigendian: bool, truecolor: bool, shifts: Shifts, nameLen: nat)

  function InitOf(header: Octets): Init
    requires |header| == 24
  {
    Init(UnpackU16(header[..2]), UnpackU16(header[2..4]), header[4], header[6] != 0, header[7] != 0,
         Shifts(header[14], header[15], header[16]), UnpackU32(header[20..24]))
  }

  /** What a server announces in ServerInit, field by field (sections 7.3.2 and 7.4 of RFC 6143). */
  datatype ServerInit = ServerInit(
    framebufferWidth: nat, framebufferHeight: nat,
    bitsPerPixel: Byte, depth: Byte, bigEndianFlag: Byte, trueColourFlag: Byte,
    redMax: nat, greenMax: nat, blueMax: nat,
    redShift: Byte, greenShift: Byte, blueShift: Byte,
    padding: Octets, name: Octets)

  ghost predicate Announceable(si: ServerInit) {
    && si.framebufferWidth < U16_LIMIT && si.framebufferHeight < U16_LIMIT
    && si.redMax < U16_LIMIT && si.greenMax < U16_LIMIT && si.blueMax < U16_LIMIT
    && |si.padding| == 3 && |si.name| < U32_LIMIT
  }

  /** The message up to the name. */
  ghost function Announced(si: ServerInit): (header: Octets)
    requires Announceable(si)
    ensures |header| == 24
  {
    PackU16(si.framebufferWidth) + PackU16(si.framebufferHeight)
    + [si.bitsPerPixel, si.depth, si.bigEndianFlag, si.trueColourFlag]
    + PackU16(si.redMax) + PackU16(si.greenMax) + PackU16(si.blueMax)
    + [si.redShift, si.greenShift, si.blueShift] + si.padding
    + PackU32(|si.name|)
  }

  lemma HeaderFields<T>(a: seq<T>, b: seq<T>, c: seq<T>, d: seq<T>, e: seq<T>, f: seq<T>, g: seq<T>, p: seq<T>, n: seq<T>)
    requires |a| == |b| == |d| == |e| == |f| == 2 && |c| == |n| == 4 && |g| == |p| == 3
    ensures var s := a + b + c + d + e + f + g + p + n;
            && |s| == 24 && s[..2] == a && s[2..4] == b && s[20..24] == n
            && s[4] == c[0] && s[6] == c[2] && s[7] == c[3] && s[14] == g[0] && s[15] == g[1] && s[16] == g[2]
  {
  }

  /** The announced fields that the client uses. */
  ghost function Seen(si: ServerInit): Init {
    Init(width := si.framebufferWidth, height := si.framebufferHeight, bpp := si.bitsPerPixel,
         bigendian := si.bigEndianFlag != 0, truecolor := si.trueColourFlag != 0,
         shifts := Shifts(red := si.redShift, green := si.greenShift, blue := si.blueShift), nameLen := |si.name|)
  }

  /** The client reads each field it uses from where the server wrote it. */
  lemma AnnouncedIsRead(si: ServerInit)
    requires Announceable(si)
    ensures InitOf(Announced(si)) == Seen(si)
  {
    HeaderFields(PackU16(si.framebufferWidth), PackU16(si.framebufferHeight),
                 [si.bitsPerPixel, si.depth, si.bigEndianFlag, si.trueColourFlag],
                 PackU16(si.redMax), PackU16(si.greenMax), PackU16(si.blueMax),
                 [si.redShift, si.greenShift, si.blueShift], si.padding, PackU32(|si.name|));
  }

  predicate Usable(init: Init) {
    init.width >= 1 && init.height >= 1 && init.bpp == 32 && init.truecolor
  }

  datatype Grab = Wrote(file: Octets) | NoCapture

  /** Pixels to file, or no capture when either conversion raises. */
  function FileFrom(pixels: Octets, init: Init, compress: Octets -> Octets): Grab {
    MulNat(init.width, init.height);
    if init.width * init.height * 4 > |pixels| then NoCapture
    else
      var rgb := RgbOf(WordsOf(pixels, init.width * init.height, init.bigendian), init.shifts);
      match Png.WritePng(init.width, init.height, rgb, compress)
      case File(bytes) => Wrote(bytes)
      case _ => NoCapture
  }

  /** What the updates after ServerInit end up as. */
  function GrabFrom(s: Octets, init: Init, compress: Octets -> Octets): Grab {
    MulNat(init.width, init.height);
    match CaptureOf(ReadUpdates(s, 0, init.width * init.height * 4, init.height, []), init.width, init.height)
    case Pixels(out) => FileFrom(out, init, compress)
    case _ => NoCapture
  }

  /** What the desktop name and the updates end up as. */
  function GrabNamed(s: Octets, init: Init, compress: Octets -> Octets): Grab {
    if |s| < init.nameLen || !Usable(init) then NoCapture else GrabFrom(s[init.nameLen..], init, compress)
  }

  /** What a stream that starts with ServerInit ends up as. */
  function GrabOf(s: Octets, compress: Octets -> Octets): Grab {
    if |s| < 24 then NoCapture else GrabNamed(s[24..], InitOf(s[..24]), compress)
  }

  /** Read the framebuffer, convert it and write the file. */
  method GrabUpdates(sock: Socket, init: Init, compress: Octets -> Octets) returns (r: Grab)
    modifies sock
    ensures r == GrabFrom(old(sock.rest), init, compress) || (!sock.patient && r == NoCapture)
  {
    var pixels := ReadRawFramebuffer(sock, init.width, init.height);
    if !pixels.Pixels? {
      return NoCapture;
    }
    var rgb := PixelsToRgb(pixels.out, init.width, init.height, init.bigendian, init.shifts);
    if rgb.None? {
      return NoCapture;
    }
    match Png.WritePng(init.width, init.height, rgb.value, compress) {
      case File(bytes) => return Wrote(bytes);
      case _ => return NoCapture;
    }
  }

  lemma FrontFirst<T>(s: seq<T>, front: seq<T>, rest: seq<T>)
    requires front + rest == s
    ensures |s| >= |front| && s[..|front|] == front && s[|front|..] == rest
  {
  }

  /** Skip the desktop name, then read the updates if the pixel format is one the client understands. */
  method GrabAfterHeader(sock: Socket, init: Init, compress: Octets -> Octets) returns (r: Grab)
    modifies sock
    ensures r == GrabNamed(old(sock.rest), init, compress) || (!sock.patient && r == NoCapture)
  {
    var name := sock.RecvExact(init.nameLen);
    if name.OsError? {
      return NoCapture;
    }
    FrontFirst(old(sock.rest), name.bytes, sock.rest);
    if !Usable(init) {
      return NoCapture;
    }
    r := GrabUpdates(sock, init, compress);
  }

  /**
   `vnc_framebuffer_png` from the ServerInit message on. The file, and whether
   there is one, is a function of the stream alone unless a read times out.
   */
  method GrabPng(sock: Socket, compress: Octets -> Octets) returns (r: Grab)
    modifies sock
    ensures r == GrabOf(old(sock.rest), compress) || (!sock.patient && r == NoCapture)
  {
    var header := sock.RecvExact(24);
    if header.OsError? {
      return NoCapture;
    }
    FrontFirst(old(sock.rest), header.bytes, sock.rest);
    r := GrabAfterHeader(sock, InitOf(header.bytes), compress);
  }

  /** A session a server may send: header, name, updates that tile its framebuffer, then anything. */
  ghost predicate Tiles(us: seq<Update>, words: seq<nat>, init: Init)
    requires |words| == init.width * init.height && AllWords(words)
  {
    && AllSendable(us)
    && AllSized(RectsOf(us))
    && AllFit(RectsOf(us), init.width, init.height)
    && PairwiseApart(RectsOf(us), init.height)
    && AllCarry(RectsOf(us), FramebufferOf(words, init.bigendian), init.width, init.height)
    && StopsAfter(us, [], init.width * init.height * 4, init.height)
  }

  ghost function WholeScreen(init: Init, fb: Octets): Rect {
    Rect(0, 0, init.width, init.height, fb)
  }

  lemma WholeScreenCarries(init: Init, fb: Octets)
    requires |fb| == init.width * init.height * 4
    ensures Sized(WholeScreen(init, fb)) && Carries(WholeScreen(init, fb), fb, init.width, init.height)
  {
    var r := WholeScreen(init, fb);
    forall px, py, c | Covers(r, px, py) && OnScreen(init.width, init.height, px, py, c)
      ensures Sent(r, px, py, c) == At(fb, init.width, init.height, px, py, c)
    {
      RowFits(r, py);
      IndexInRange(init.width, init.height, px, py, c);
    }
  }

  lemma OneRectStops(r: Rect, pad: Byte, height: nat)
    requires r.y + r.h <= height && r.w * r.h > 0
    ensures RectsOf([Update(pad, [r])]) == [r]
    ensures StopsAfter([Update(pad, [r])], [], r.w * r.h * 4, height)
  {
    var us := [Update(pad, [r])];
    assert us[1..] == [] && RectsOf(us[1..]) == [] && us[0].rects + [] == [r];
    assert [] + us[0].rects == [r] && [r][..0] == [];
    GotIsArea([r], height);
    assert AllGot([], height) == 0;
    assert StopsAfter(us[1..], [r], r.w * r.h * 4, height);
  }

  /** Such sessions exist for every framebuffer: one update with one rectangle for the whole screen. */
  lemma WholeScreenTiles(words: seq<nat>, init: Init, pad: Byte)
    requires |words| == init.width * init.height && AllWords(words)
    requires init.width < U16_LIMIT && init.height < U16_LIMIT && words != []
    ensures Tiles([Update(pad, [WholeScreen(init, FramebufferOf(words, init.bigendian))])], words, init)
  {
    var fb := FramebufferOf(words, init.bigendian);
    var r := WholeScreen(init, fb);
    WholeScreenCarries(init, fb);
    OneRectStops(r, pad, init.height);
  }

  lemma SessionParts<T>(header: seq<T>, name: seq<T>, body: seq<T>)
    requires |header| == 24
    ensures var s := header + name + body;
            |s| >= 24 && s[..24] == header && |s[24..]| >= |name| && s[24..][|name|..] == body
  {
    assert (header + name + body)[24..] == name + body;
  }

  lemma TiledCapture(us: seq<Update>, words: seq<nat>, tail: Octets, init: Init)
    requires |words| == init.width * init.height && AllWords(words) && Tiles(us, words, init)
    ensures CaptureOf(ReadUpdates(EncodeUpdates(us, tail), 0, init.width * init.height * 4, init.height, []),
                      init.width, init.height)
            == Pixels(FramebufferOf(words, init.bigendian))
  {
    var need := init.width * init.height * 4;
    assert AllGot([], init.height) == 0 && [] + RectsOf(us) == RectsOf(us);
    DecodeUpdates(us, tail, need, init.height, []);
    CaptureIsServer(EncodeUpdates(us, tail), FramebufferOf(words, init.bigendian), init.width, init.height);
  }

  /** The filtered scanlines of the picture, compressed, fit a PNG chunk. */
  ghost predicate FitsChunk(words: seq<nat>, init: Init, compress: Octets -> Octets)
    requires |words| == init.width * init.height
  {
    |compress(Png.Scanlines(RgbOf(words, init.shifts), init.width, init.height, 0))| < U32_LIMIT
  }

  lemma FileFromWords(words: seq<nat>, init: Init, compress: Octets -> Octets)
    requires |words| == init.width * init.height && AllWords(words)
    ensures FileFrom(FramebufferOf(words, init.bigendian), init, compress) ==
            match Png.WritePng(init.width, init.height, RgbOf(words, init.shifts), compress)
            case File(bytes) => Wrote(bytes)
            case _ => NoCapture
  {
    WordsRoundTrip(words, init.bigendian);
  }

  lemma ServerPixelsToFile(words: seq<nat>, init: Init, compress: Octets -> Octets, inflate: Octets -> Octets)
    requires |words| == init.width * init.height && AllWords(words) && Usable(init)
    requires init.width < U16_LIMIT && init.height < U16_LIMIT
    requires Png.Inverse(compress, inflate)
    ensures var g := FileFrom(FramebufferOf(words, init.bigendian), init, compress);
            && (g.Wrote? <==> FitsChunk(words, init, compress))
            && (g.Wrote? ==>
                  Png.DecodePng(g.file, inflate) == Some(Png.Image(init.width, init.height, RgbOf(words, init.shifts))))
  {
    FileFromWords(words, init, compress);
    Png.PngRoundTrip(init.width, init.height, RgbOf(words, init.shifts), compress, inflate);
  }

  /**
   End to end: a server that announces itself and tiles its screen with raw
   rectangles gets a file, if its pixel format is one the client understands and
   the compressed picture fits a chunk, and in it its width, its height and for
   every pixel the three masked shifts of the pixel word. The announced byte order
   enters only in how the server wrote its framebuffer, so the picture does not
   depend on it.
   */
  lemma GrabShowsServer(si: ServerInit, us: seq<Update>, tail: Octets, words: seq<nat>,
                        compress: Octets -> Octets, inflate: Octets -> Octets)
    requires Announceable(si) && |words| == si.framebufferWidth * si.framebufferHeight && AllWords(words)
    requires Tiles(us, words, Seen(si))
    requires Png.Inverse(compress, inflate)
    ensures var g := GrabOf(Announced(si) + si.name + EncodeUpdates(us, tail), compress);
            && (g.Wrote? <==> si.framebufferWidth > 0 && si.framebufferHeight > 0 && si.bitsPerPixel == 32 &&
                              si.trueColourFlag != 0 && FitsChunk(words, Seen(si), compress))
            && (g.Wrote? ==> Png.DecodePng(g.file, inflate) ==
                             Some(Png.Image(si.framebufferWidth, si.framebufferHeight, RgbOf(words, Seen(si).shifts))))
  {
    AnnouncedIsRead(si);
    SessionParts(Announced(si), si.name, EncodeUpdates(us, tail));
    if Usable(Seen(si)) {
      TiledCapture(us, words, tail, Seen(si));
      ServerPixelsToFile(words, Seen(si), compress, inflate);
    }
  }

  // ------------------------------------------------------------------
  // From colours to colours
  // ------------------------------------------------------------------

  datatype Colour = Colour(red: Byte, green: Byte, blue: Byte)

  /** The announced places of the three components of eight bits lie in the pixel word and do not overlap. */
  ghost predicate Disjoint(sh: Shifts) {
    && sh.red <= 24 && sh.green <= 24 && sh.blue <= 24
    && (sh.red + 8 <= sh.green || sh.green + 8 <= sh.red)
    && (sh.green + 8 <= sh.blue || sh.blue + 8 <= sh.green)
    && (sh.red + 8 <= sh.blue || sh.blue + 8 <= sh.red)
  }

  /** A colour in the announced pixel format. */
  ghost function PixelWord(c: Colour, sh: Shifts): nat {
    MulNat(c.red, Pow2(sh.red));
    MulNat(c.green, Pow2(sh.green));
    MulNat(c.blue, Pow2(sh.blue));
    c.red * Pow2(sh.red) + c.green * Pow2(sh.green) + c.blue * Pow2(sh.blue)
  }

  lemma {:induction false} Pow2Sum(m: nat, n: nat)
    ensures Pow2(m + n) == Pow2(m) * Pow2(n)
  {
    if n > 0 {
      Pow2Sum(m, n - 1);
    }
  }

  lemma Pow2Up(m: nat, n: nat)
    requires m <= n
    ensures Pow2(n) == Pow2(n - m) * Pow2(m)
    ensures Pow2(m) <= Pow2(n)
  {
    Pow2Sum(n - m, m);
    MulMono(1, Pow2(n - m), Pow2(m));
  }

  /** Eight bits up. */
  lemma Pow2Octet(m: nat)
    ensures Pow2(m + 8) == 0x100 * Pow2(m)
  {
    Pow2Sum(m, 8);
    assert Pow2(4) == 0x10 && Pow2(8) == 0x100;
  }

  lemma Quotient(q: nat, p: nat, rest: nat)
    requires rest < p
    ensures (q * p + rest) / p == q
  {
    var n := q * p + rest;
    assert n == (n / p) * p + n % p;
    if n / p < q {
      MulMono(n / p + 1, q, p);
      MulNext(n / p, p);
    } else if n / p > q {
      MulMono(q + 1, n / p, p);
      MulNext(q, p);
    }
  }

  /** A component is read from between what lies above and what lies below it. */
  lemma ChannelBetween(above: nat, c: Byte, below: nat, shift: nat)
    requires below < Pow2(shift)
    ensures Channel((above * 0x100 + c) * Pow2(shift) + below, shift) == c
  {
    var q, p := above * 0x100 + c, Pow2(shift);
    MulNat(q, p);
    Quotient(q, p, below);
    assert (q * p + below) / p % 0x100 == q % 0x100 == c;
  }

  lemma ComponentBounded(c: Byte, shift: nat, limit: nat)
    requires shift + 8 <= limit
    ensures 0 <= c * Pow2(shift) <= Pow2(limit) - Pow2(shift)
  {
    Pow2Octet(shift);
    Pow2Up(shift + 8, limit);
    MulMono(0, c, Pow2(shift));
    MulMono(c + 1, 0x100, Pow2(shift));
    MulNext(c, Pow2(shift));
  }

  /** A component above another one adds a multiple of what the lower one's octet spans. */
  lemma ComponentAbove(c: Byte, shift: nat, low: nat) returns (q: nat)
    requires low + 8 <= shift
    ensures c * Pow2(shift) == q * 0x100 * Pow2(low)
  {
    Pow2Up(low + 8, shift);
    Pow2Octet(low);
    q := c * Pow2(shift - low - 8);
    Regroup(c, Pow2(shift - low - 8), Pow2(low));
  }

  lemma Regroup(a: nat, b: nat, c: nat)
    ensures a * (b * (0x100 * c)) == a * b * 0x100 * c
  {
  }

  lemma Spread(x: nat, y: nat, z: nat, p: nat)
    ensures (x + y) * 0x100 * p == x * 0x100 * p + y * 0x100 * p
    ensures (x * 0x100 + z) * p == x * 0x100 * p + z * p
  {
  }

  lemma HighChannel(x: Byte, a: nat, y: Byte, b: nat, z: Byte, c: nat, word: nat)
    requires c + 8 <= b && b + 8 <= a && word == x * Pow2(a) + y * Pow2(b) + z * Pow2(c)
    ensures Channel(word, a) == x
  {
    MulMono(0, x, Pow2(a));
    ComponentBounded(y, b, a);
    ComponentBounded(z, c, b);
    ChannelBetween(0, x, y * Pow2(b) + z * Pow2(c), a);
  }

  lemma MiddleChannel(x: Byte, a: nat, y: Byte, b: nat, z: Byte, c: nat, word: nat)
    requires c + 8 <= b && b + 8 <= a && word == x * Pow2(a) + y * Pow2(b) + z * Pow2(c)
    ensures Channel(word, b) == y
  {
    MulMono(0, x, Pow2(a));
    MulMono(0, y, Pow2(b));
    var q := ComponentAbove(x, a, b);
    ComponentBounded(z, c, b);
    Spread(q, 0, y, Pow2(b));
    ChannelBetween(q, y, z * Pow2(c), b);
  }

  lemma LowChannel(x: Byte, a: nat, y: Byte, b: nat, z: Byte, c: nat, word: nat)
    requires c + 8 <= b && b + 8 <= a && word == x * Pow2(a) + y * Pow2(b) + z * Pow2(c)
    ensures Channel(word, c) == z
  {
    MulMono(0, x, Pow2(a));
    MulMono(0, y, Pow2(b));
    MulMono(0, z, Pow2(c));
    var q := ComponentAbove(x, a, c);
    var r := ComponentAbove(y, b, c);
    Spread(q, r, z, Pow2(c));
    Spread(q + r, 0, z, Pow2(c));
    ChannelBetween(q + r, z, 0, c);
  }

  /** Three numbers, each in its own range, add up to less than the highest range's end. */
  lemma SumBounded(x: int, y: int, z: int, a: int, b: int, c: int, limit: int)
    requires 0 <= x <= limit - a && 0 <= y <= a - b && 0 <= z <= b - c && 0 < c
    ensures 0 <= x + y + z < limit
  {
  }

  lemma WordBounded(x: Byte, a: nat, y: Byte, b: nat, z: Byte, c: nat, word: nat, top: nat)
    requires c + 8 <= b && b + 8 <= a && a + 8 <= top && word == x * Pow2(a) + y * Pow2(b) + z * Pow2(c)
    ensures word < Pow2(top)
  {
    ComponentBounded(x, a, top);
    ComponentBounded(y, b, a);
    ComponentBounded(z, c, b);
    SumBounded(x * Pow2(a), y * Pow2(b), z * Pow2(c), Pow2(a), Pow2(b), Pow2(c), Pow2(top));
  }

  /** Three components, from the highest to the lowest. */
  lemma ThreeChannels(x: Byte, a: nat, y: Byte, b: nat, z: Byte, c: nat, word: nat, top: nat)
    requires c + 8 <= b && b + 8 <= a && a + 8 <= top && word == x * Pow2(a) + y * Pow2(b) + z * Pow2(c)
    ensures word < Pow2(top) && Channel(word, a) == x && Channel(word, b) == y && Channel(word, c) == z
  {
    HighChannel(x, a, y, b, z, c, word);
    MiddleChannel(x, a, y, b, z, c, word);
    LowChannel(x, a, y, b, z, c, word);
    WordBounded(x, a, y, b, z, c, word, top);
  }

  /** Each component is read back from the word, wherever the server put it. */
  lemma ColourReadBack(c: Colour, sh: Shifts)
    requires Disjoint(sh)
    ensures PixelWord(c, sh) < U32_LIMIT
    ensures Channel(PixelWord(c, sh), sh.red) == c.red
    ensures Channel(PixelWord(c, sh), sh.green) == c.green
    ensures Channel(PixelWord(c, sh), sh.blue) == c.blue
  {
    var word := PixelWord(c, sh);
    Crc.Pow2Of32();
    if sh.blue < sh.green < sh.red {
      ThreeChannels(c.red, sh.red, c.green, sh.green, c.blue, sh.blue, word, 32);
    } else if sh.green < sh.blue < sh.red {
      ThreeChannels(c.red, sh.red, c.blue, sh.blue, c.green, sh.green, word, 32);
    } else if sh.blue < sh.red < sh.green {
      ThreeChannels(c.green, sh.green, c.red, sh.red, c.blue, sh.blue, word, 32);
    } else if sh.red < sh.blue < sh.green {
      ThreeChannels(c.green, sh.green, c.blue, sh.blue, c.red, sh.red, word, 32);
    } else if sh.green < sh.red < sh.blue {
      ThreeChannels(c.blue, sh.blue, c.red, sh.red, c.green, sh.green, word, 32);
    } else {
      ThreeChannels(c.blue, sh.blue, c.green, sh.green, c.red, sh.red, word, 32);
    }
  }

  /** The usual 32-bit format: 0x00RRGGBB. */
  lemma UsualFormat(c: Colour)
    ensures Disjoint(Shifts(16, 8, 0)) && PixelWord(c, Shifts(16, 8, 0)) == c.red * 0x1_0000 + c.green * 0x100 + c.blue
  {
    assert Pow2(0) == 1 && Pow2(4) == 0x10 && Pow2(8) == 0x100 && Pow2(12) == 0x1000 && Pow2(16) == 0x1_0000;
  }

  /** A picture as the server's screen, in pixel words, row by row. */
  ghost predicate Depicts(words: seq<nat>, picture: (int, int) -> Colour, sh: Shifts, width: nat, height: nat) {
    && |words| == width * height
    && forall px, py | OnScreen(width, height, px, py, 0) ::
         var i := py * width + px; 0 <= i < |words| && words[i] == PixelWord(picture(px, py), sh)
  }

  /** The colour of a pixel of a decoded image, whose rows go from top to bottom and from left to right. */
  ghost function PixelOf(image: Png.Image, px: int, py: int): Colour
    requires OnScreen(image.width, image.height, px, py, 0) && |image.rgb| == image.width * image.height * 3
  {
    IndexInRange(image.width, image.height, px, py, 0);
    MulNat(py, image.width);
    var i := py * image.width + px;
    Colour(image.rgb[i * 3], image.rgb[i * 3 + 1], image.rgb[i * 3 + 2])
  }

  lemma PixelShown(words: seq<nat>, picture: (int, int) -> Colour, sh: Shifts, width: nat, height: nat, px: int, py: int)
    requires Disjoint(sh) && Depicts(words, picture, sh, width, height) && OnScreen(width, height, px, py, 0)
    ensures PixelOf(Png.Image(width, height, RgbOf(words, sh)), px, py) == picture(px, py)
  {
    var i := py * width + px;
    RgbAt(words, sh, i, 0);
    RgbAt(words, sh, i, 1);
    RgbAt(words, sh, i, 2);
    ColourReadBack(picture(px, py), sh);
  }

  /**
   In colours: when the server's pixel format keeps its three eight-bit components
   apart, every pixel of the decoded file has the colour of that pixel of the
   server's screen.
   */
  lemma GrabShowsColours(si: ServerInit, picture: (int, int) -> Colour, us: seq<Update>, tail: Octets, words: seq<nat>,
                         compress: Octets -> Octets, inflate: Octets -> Octets, px: int, py: int)
    requires Announceable(si) && Disjoint(Seen(si).shifts) && AllWords(words)
    requires Depicts(words, picture, Seen(si).shifts, si.framebufferWidth, si.framebufferHeight)
    requires Tiles(us, words, Seen(si)) && Png.Inverse(compress, inflate)
    requires OnScreen(si.framebufferWidth, si.framebufferHeight, px, py, 0)
    ensures var g := GrabOf(Announced(si) + si.name + EncodeUpdates(us, tail), compress);
            g.Wrote? ==>
              var d := Png.DecodePng(g.file, inflate);
              && d.Some? && d.value.width == si.framebufferWidth && d.value.height == si.framebufferHeight
              && |d.value.rgb| == d.value.width * d.value.height * 3
              && PixelOf(d.value, px, py) == picture(px, py)
  {
    GrabShowsServer(si, us, tail, words, compress, inflate);
    PixelShown(words, picture, Seen(si).shifts, si.framebufferWidth, si.framebufferHeight, px, py);
  }
}
