/**
 The RFB FramebufferUpdate decoder: raw rectangles (section 7.7.1 of RFC 6143)
 read from a stream and painted into one flat row-major byte buffer.
 */
module Framebuffer {
  import opened Bytes
  import opened Arithmetic
  import opened Sockets

  datatype Rect = Rect(x: nat, y: nat, w: nat, h: nat, raw: Octets)

  /** One FramebufferUpdate message; `pad` is the padding octet of section 7.6.1. */
  datatype Update = Update(pad: Byte, rects: seq<Rect>)

  ghost predicate Sized(r: Rect) {
    |r.raw| == r.w * r.h * 4
  }

  ghost predicate AllSized(rects: seq<Rect>) {
    forall i :: 0 <= i < |rects| ==> Sized(rects[i])
  }

  // ------------------------------------------------------------------
  // Painting
  // ------------------------------------------------------------------

  /** `out[start : start + len(sl)] = sl` on a bytearray: bounds are clipped, so the array may grow. */
  function SliceAssign(out: Octets, start: nat, sl: Octets): (r: Octets)
    ensures |r| == |out| <==> sl == [] || start + |sl| <= |out|
    ensures |r| >= |out|
    ensures start + |sl| <= |out| ==>
              forall k :: 0 <= k < |out| ==> r[k] == if start <= k < start + |sl| then sl[k - start] else out[k]
  {
    out[..Min(start, |out|)] + sl + out[Min(start + |sl|, |out|)..]
  }

  lemma RowFits(r: Rect, row: nat)
    requires Sized(r) && row < r.h
    ensures 0 <= row * r.w * 4 <= (row + 1) * r.w * 4 <= |r.raw|
    ensures (row + 1) * r.w * 4 == row * r.w * 4 + r.w * 4
  {
    MulMono(row + 1, r.h, r.w);
    MulMono(0, row, r.w);
    MulNext(row, r.w);
  }

  /** `raw[row * w * 4 : (row + 1) * w * 4]`. */
  function RowOf(r: Rect, row: nat): (sl: Octets)
    requires Sized(r) && row < r.h
    ensures |sl| == r.w * 4
  {
    RowFits(r, row);
    r.raw[row * r.w * 4..(row + 1) * r.w * 4]
  }

  /** Byte position of component `c` of pixel (px, py). */
  function Index(width: nat, px: int, py: int, c: int): int {
    (py * width + px) * 4 + c
  }

  /** One turn of the row loop: rows below the screen are skipped. */
  function PaintRow(out: Octets, r: Rect, row: nat, width: nat, height: nat): (out': Octets)
    requires Sized(r) && row < r.h
  {
    if r.y + row >= height then out
    else
      MulNat(r.y + row, width);
      SliceAssign(out, Index(width, r.x, r.y + row, 0), RowOf(r, row))
  }

  /** The first `n` turns of the row loop. */
  function PaintRows(out: Octets, r: Rect, n: nat, width: nat, height: nat): (out': Octets)
    requires Sized(r) && n <= r.h
  {
    if n == 0 then out else PaintRow(PaintRows(out, r, n - 1, width, height), r, n - 1, width, height)
  }

  /** What the first `n` turns of the row loop add to `got`. */
  function RowsGot(r: Rect, n: nat, height: nat): (got: nat) {
    if n == 0 then 0 else RowsGot(r, n - 1, height) + if r.y + n - 1 >= height then 0 else r.w * 4
  }

  function AllGot(rects: seq<Rect>, height: nat): (got: nat) {
    if rects == [] then 0
    else AllGot(rects[..|rects| - 1], height) + RowsGot(rects[|rects| - 1], rects[|rects| - 1].h, height)
  }

  /** The buffer after painting `rects` in order on a zeroed screen. */
  function Paint(rects: seq<Rect>, width: nat, height: nat): (out: Octets)
    requires AllSized(rects)
  {
    if rects == [] then
      MulNat(width, height);
      Zeros(width * height * 4)
    else
      var last := rects[|rects| - 1];
      PaintRows(Paint(rects[..|rects| - 1], width, height), last, last.h, width, height)
  }

  // ------------------------------------------------------------------
  // The byte stream
  // ------------------------------------------------------------------

  datatype Decoded = Complete(rects: seq<Rect>, rest: Octets) | NotRaw | Truncated

  /** What a stream decodes to: rectangles up to the first message end with `got >= need`. */
  function ReadUpdates(s: Octets, got: nat, need: nat, height: nat, acc: seq<Rect>): (d: Decoded)
    requires AllSized(acc)
    ensures d.Complete? ==> AllSized(d.rects)
    decreases |s|, 0
  {
    if got >= need then Complete(acc, s)
    else if |s| < 4 then Truncated
    else if s[0] != 0 then ReadUpdates(s[4..], got, need, height, acc)
    else ReadRects(s[4..], UnpackU16(s[2..4]), got, need, height, acc)
  }

  function ReadRects(s: Octets, n: nat, got: nat, need: nat, height: nat, acc: seq<Rect>): (d: Decoded)
    requires AllSized(acc)
    ensures d.Complete? ==> AllSized(d.rects)
    decreases |s|, 1
  {
    if n == 0 then ReadUpdates(s, got, need, height, acc)
    else
      match PieceOf(s)
      case Broken => Truncated
      case OtherEncoding => NotRaw
      case Raw(r) =>
        ReadRects(s[12 + |r.raw|..], n - 1, got + RowsGot(r, r.h, height), need, height, acc + [r])
  }

  datatype Piece = Raw(rect: Rect) | OtherEncoding | Broken

  /** What a stream at the start of a rectangle holds. */
  function PieceOf(s: Octets): (p: Piece)
    ensures p.Raw? ==> Sized(p.rect) && |s| >= 12 + |p.rect.raw|
  {
    if |s| < 12 then Broken
    else if UnpackU32(s[8..12]) != 0 then OtherEncoding
    else if |s| - 12 < RawSize(s) then Broken
    else Raw(RectAt(s))
  }

  function RawSize(s: Octets): (n: nat)
    requires |s| >= 12
  {
    MulNat(UnpackU16(s[4..6]), UnpackU16(s[6..8]));
    UnpackU16(s[4..6]) * UnpackU16(s[6..8]) * 4
  }

  /** The rectangle whose 12-octet header and pixels start the stream. */
  function RectAt(s: Octets): (r: Rect)
    requires |s| >= 12 && |s| - 12 >= RawSize(s)
    ensures Sized(r)
  {
    Rect(UnpackU16(s[..2]), UnpackU16(s[2..4]), UnpackU16(s[4..6]), UnpackU16(s[6..8]), s[12..12 + RawSize(s)])
  }

  // ------------------------------------------------------------------
  // The decoder
  // ------------------------------------------------------------------

  datatype Capture = Pixels(out: Octets) | Unsupported | SocketError

  function CaptureOf(d: Decoded, width: nat, height: nat): Capture
    requires d.Complete? ==> AllSized(d.rects)
  {
    match d
    case Complete(rects, _) => Pixels(Paint(rects, width, height))
    case NotRaw => Unsupported
    case Truncated => SocketError
  }

  lemma PaintRowsNext(out: Octets, r: Rect, row: nat, width: nat, height: nat)
    requires Sized(r) && row < r.h
    ensures PaintRows(out, r, row + 1, width, height)
            == PaintRow(PaintRows(out, r, row, width, height), r, row, width, height)
    ensures RowsGot(r, row + 1, height) == RowsGot(r, row, height) + if r.y + row >= height then 0 else r.w * 4
  {
  }

  /** The `for row in range(h)` loop. */
  method PaintRect(out0: Octets, got0: nat, r: Rect, width: nat, height: nat) returns (out: Octets, got: nat)
    requires Sized(r)
    ensures out == PaintRows(out0, r, r.h, width, height)
    ensures got == got0 + RowsGot(r, r.h, height)
  {
    out, got := out0, got0;
    for row := 0 to r.h
      invariant out == PaintRows(out0, r, row, width, height)
      invariant got == got0 + RowsGot(r, row, height)
    {
      PaintRowsNext(out0, r, row, width, height);
      var destY := r.y + row;
      if destY >= height {
        continue;
      }
      MulNat(destY, width);
      var start := Index(width, r.x, destY, 0);
      var sl := RowOf(r, row);
      out := SliceAssign(out, start, sl);
      got := got + |sl|;
    }
  }

  /** One turn of the rectangle loop up to `raw = _recv_exact(...)`. */
  method ReadRect(sock: Socket) returns (p: Piece)
    modifies sock
    ensures p == PieceOf(old(sock.rest)) || (p == Broken && !sock.patient)
    ensures p.Raw? ==> sock.rest == old(sock.rest)[12 + |p.rect.raw|..]
    ensures |sock.rest| <= |old(sock.rest)|
  {
    ghost var s := sock.rest;
    var rh := sock.RecvExact(12);
    if rh.OsError? { return Broken; }
    HeaderPrefix(s, rh.bytes, sock.rest);
    var x, y := UnpackU16(rh.bytes[..2]), UnpackU16(rh.bytes[2..4]);
    var w, h := UnpackU16(rh.bytes[4..6]), UnpackU16(rh.bytes[6..8]);
    if UnpackU32(rh.bytes[8..12]) != 0 {
      return OtherEncoding;
    }
    MulNat(w, h);
    var raw := sock.RecvExact(w * h * 4);
    if raw.OsError? { return Broken; }
    assert s[12..12 + RawSize(s)] == raw.bytes;
    return Raw(Rect(x, y, w, h, raw.bytes));
  }

  lemma HeaderPrefix(t: Octets, header: Octets, rest: Octets)
    requires header + rest == t && |header| == 12
    ensures |t| >= 12 && t[12..] == rest
    ensures t[..2] == header[..2] && t[2..4] == header[2..4] && t[4..6] == header[4..6]
    ensures t[6..8] == header[6..8] && t[8..12] == header[8..12]
  {
  }

  lemma PaintNext(acc: seq<Rect>, r: Rect, width: nat, height: nat)
    requires AllSized(acc) && Sized(r)
    ensures AllSized(acc + [r])
    ensures Paint(acc + [r], width, height) == PaintRows(Paint(acc, width, height), r, r.h, width, height)
  {
    assert (acc + [r])[..|acc|] == acc;
  }

  lemma RectsNext(s: Octets, n: nat, got: nat, need: nat, height: nat, acc: seq<Rect>)
    requires AllSized(acc) && n > 0
    ensures PieceOf(s).Broken? ==> ReadRects(s, n, got, need, height, acc) == Truncated
    ensures PieceOf(s).OtherEncoding? ==> ReadRects(s, n, got, need, height, acc) == NotRaw
    ensures PieceOf(s).Raw? ==>
              var r := PieceOf(s).rect;
              AllSized(acc + [r]) &&
              ReadRects(s, n, got, need, height, acc)
              == ReadRects(s[12 + |r.raw|..], n - 1, got + RowsGot(r, r.h, height), need, height, acc + [r])
  {
  }

  /** One turn of the rectangle loop; `n` rectangles of the message are left and `sofar` has been painted. */
  method ReadAndPaint(sock: Socket, ghost n: nat, out0: Octets, got0: nat, ghost need: nat, width: nat, height: nat,
                      ghost sofar: seq<Rect>)
    returns (p: Piece, out: Octets, got: nat, ghost acc: seq<Rect>)
    requires AllSized(sofar) && out0 == Paint(sofar, width, height) && n > 0
    modifies sock
    ensures |sock.rest| <= |old(sock.rest)|
    ensures p.Raw? ==> AllSized(acc) && out == Paint(acc, width, height) &&
                       ReadRects(old(sock.rest), n, got0, need, height, sofar)
                       == ReadRects(sock.rest, n - 1, got, need, height, acc)
    ensures p.OtherEncoding? ==> ReadRects(old(sock.rest), n, got0, need, height, sofar) == NotRaw
    ensures p.Broken? && sock.patient ==> ReadRects(old(sock.rest), n, got0, need, height, sofar) == Truncated
  {
    out, got, acc := out0, got0, sofar;
    RectsNext(sock.rest, n, got, need, height, acc);
    p := ReadRect(sock);
    if !p.Raw? {
      return;
    }
    out, got := PaintRect(out, got, p.rect, width, height);
    PaintNext(acc, p.rect, width, height);
    acc := acc + [p.rect];
  }

  /** The rectangle loop of one message; `sofar` is what has been painted before. */
  method ReadMessage(sock: Socket, nrects: nat, out0: Octets, got0: nat, ghost need: nat, width: nat, height: nat,
                     ghost sofar: seq<Rect>)
    returns (stop: Piece, out: Octets, got: nat, ghost acc: seq<Rect>)
    requires AllSized(sofar) && out0 == Paint(sofar, width, height)
    modifies sock
    ensures |sock.rest| <= |old(sock.rest)|
    ensures stop.Raw? ==> AllSized(acc) && out == Paint(acc, width, height) &&
                          ReadRects(old(sock.rest), nrects, got0, need, height, sofar)
                          == ReadUpdates(sock.rest, got, need, height, acc)
    ensures stop.OtherEncoding? ==> ReadRects(old(sock.rest), nrects, got0, need, height, sofar) == NotRaw
    ensures stop.Broken? && sock.patient ==>
              ReadRects(old(sock.rest), nrects, got0, need, height, sofar) == Truncated
  {
    out, got, acc := out0, got0, sofar;
    stop := Raw(Rect(0, 0, 0, 0, []));
    ghost var whole := ReadRects(sock.rest, nrects, got, need, height, acc);
    for i := 0 to nrects
      invariant stop.Raw?
      invariant AllSized(acc) && out == Paint(acc, width, height)
      invariant ReadRects(sock.rest, nrects - i, got, need, height, acc) == whole
      invariant |sock.rest| <= |old(sock.rest)|
    {
      stop, out, got, acc := ReadAndPaint(sock, nrects - i, out, got, need, width, height, acc);
      if !stop.Raw? {
        return;
      }
    }
  }

  /**
   `_read_raw_framebuffer`. The result depends on the stream alone: not on how
   it is fragmented, and not on timing unless a read times out. The outer loop
   terminates because every turn consumes at least one message header.
   */
  method ReadRawFramebuffer(sock: Socket, width: nat, height: nat) returns (r: Capture)
    modifies sock
    ensures r == CaptureOf(ReadUpdates(old(sock.rest), 0, width * height * 4, height, []), width, height)
            || (!sock.patient && r == SocketError)
  {
    MulNat(width, height);
    var need := width * height * 4;
    var out := Zeros(need);
    var got: nat := 0;
    ghost var acc: seq<Rect> := [];
    ghost var whole := ReadUpdates(sock.rest, 0, need, height, []);
    while got < need
      invariant AllSized(acc) && out == Paint(acc, width, height)
      invariant ReadUpdates(sock.rest, got, need, height, acc) == whole
      decreases |sock.rest|
    {
      ghost var s := sock.rest;
      var msg := sock.RecvExact(4);
      if msg.OsError? { return SocketError; }
      assert s[2..4] == msg.bytes[2..4] && s[4..] == sock.rest;
      if msg.bytes[0] != 0 {
        continue;
      }
      var nrects := UnpackU16(msg.bytes[2..4]);
      var stop;
      stop, out, got, acc := ReadMessage(sock, nrects, out, got, need, width, height, acc);
      match stop {
        case Broken => return SocketError;
        case OtherEncoding => return Unsupported;
        case Raw(_) =>
      }
    }
    return Pixels(out);
  }
}
