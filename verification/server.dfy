/** The other end of the connection: a server that sends raw updates, and what the decoder makes of them. */
module Server {
  import opened Bytes
  import opened Framebuffer
  import opened Painting
  import opened Coverage
  import opened Separated

  ghost predicate Sendable(r: Rect) {
    Sized(r) && r.x < U16_LIMIT && r.y < U16_LIMIT && r.w < U16_LIMIT && r.h < U16_LIMIT
  }

  ghost predicate SendableUpdate(u: Update) {
    |u.rects| < U16_LIMIT && forall i :: 0 <= i < |u.rects| ==> Sendable(u.rects[i])
  }

  ghost predicate AllSendable(us: seq<Update>) {
    forall i :: 0 <= i < |us| ==> SendableUpdate(us[i])
  }

  /** The header of a rectangle in some encoding. */
  ghost function HeaderIn(r: Rect, encoding: nat): (b: Octets)
    requires Sendable(r) && encoding < U32_LIMIT
    ensures |b| == 12
  {
    PackU16(r.x) + PackU16(r.y) + PackU16(r.w) + PackU16(r.h) + PackU32(encoding)
  }

  /** The rectangle header; encoding number 0 is raw. */
  ghost function Header(r: Rect): (b: Octets)
    requires Sendable(r)
    ensures |b| == 12
  {
    HeaderIn(r, 0)
  }

  ghost function EncodeRect(r: Rect): Octets
    requires Sendable(r)
  {
    Header(r) + r.raw
  }

  /** The rectangles of a message, with `tail` after them. */
  ghost function EncodeRects(rects: seq<Rect>, tail: Octets): Octets
    requires forall i :: 0 <= i < |rects| ==> Sendable(rects[i])
  {
    if rects == [] then tail else EncodeRect(rects[0]) + EncodeRects(rects[1..], tail)
  }

  /** One message, with `tail` after it. */
  ghost function EncodeUpdate(u: Update, tail: Octets): Octets
    requires SendableUpdate(u)
  {
    [0, u.pad] + PackU16(|u.rects|) + EncodeRects(u.rects, tail)
  }

  /** The server's messages, with `tail` after them. */
  ghost function EncodeUpdates(us: seq<Update>, tail: Octets): Octets
    requires AllSendable(us)
  {
    if us == [] then tail else EncodeUpdate(us[0], EncodeUpdates(us[1..], tail))
  }

  ghost function RectsOf(us: seq<Update>): seq<Rect> {
    if us == [] then [] else us[0].rects + RectsOf(us[1..])
  }

  /** The counter reaches `need` at the end of the last update and not at the end of an earlier one. */
  ghost predicate StopsAfter(us: seq<Update>, acc: seq<Rect>, need: nat, height: nat) {
    if us == [] then AllGot(acc, height) >= need
    else AllGot(acc, height) < need && StopsAfter(us[1..], acc + us[0].rects, need, height)
  }

  lemma HeadTail<T>(a: seq<T>, b: seq<T>)
    requires b != []
    ensures a + [b[0]] + b[1..] == a + b
  {
  }

  lemma AllGotSnoc(acc: seq<Rect>, r: Rect, height: nat)
    ensures AllGot(acc + [r], height) == AllGot(acc, height) + RowsGot(r, r.h, height)
  {
    assert (acc + [r])[..|acc|] == acc;
  }

  lemma DecodeRect(r: Rect, tail: Octets)
    requires Sendable(r)
    ensures var s := EncodeRect(r) + tail;
            PieceOf(s) == Raw(r) && s[12 + |r.raw|..] == tail
  {
    var s := EncodeRect(r) + tail;
    assert s == Header(r) + r.raw + tail;
    assert s[..2] == PackU16(r.x) && s[2..4] == PackU16(r.y) && s[4..6] == PackU16(r.w);
    assert s[6..8] == PackU16(r.h) && s[8..12] == PackU32(0);
    assert s[12..12 + |r.raw|] == r.raw;
  }

  /** A rectangle in any other encoding, whatever its octets are, ends the capture without a picture. */
  lemma OtherEncodingRefused(r: Rect, encoding: nat, more: Octets, n: nat, got: nat, need: nat, height: nat, width: nat,
                             acc: seq<Rect>)
    requires Sendable(r) && 0 < encoding < U32_LIMIT && n > 0 && AllSized(acc)
    ensures ReadRects(HeaderIn(r, encoding) + more, n, got, need, height, acc) == NotRaw
    ensures CaptureOf(ReadRects(HeaderIn(r, encoding) + more, n, got, need, height, acc), width, height) == Unsupported
  {
    var s := HeaderIn(r, encoding) + more;
    assert s[8..12] == PackU32(encoding);
    RectsNext(s, n, got, need, height, acc);
  }

  /** `s` starts with the wire form of the rectangles, and `tail` follows them. */
  ghost predicate OnWire(s: Octets, rects: seq<Rect>, tail: Octets)
    decreases |rects|
  {
    if rects == [] then s == tail
    else PieceOf(s) == Raw(rects[0]) && OnWire(s[12 + |rects[0].raw|..], rects[1..], tail)
  }

  /** What the server encodes is on the wire. */
  lemma {:induction false} EncodedOnWire(rects: seq<Rect>, tail: Octets)
    requires forall i :: 0 <= i < |rects| ==> Sendable(rects[i])
    ensures OnWire(EncodeRects(rects, tail), rects, tail)
    decreases |rects|
  {
    if rects != [] {
      EncodedOnWire(rects[1..], tail);
      DecodeRect(rects[0], EncodeRects(rects[1..], tail));
    }
  }

  /** What is on the wire is decoded. */
  lemma {:induction false} WireDecodes(s: Octets, rects: seq<Rect>, tail: Octets, need: nat, height: nat, acc: seq<Rect>)
    requires AllSized(acc) && OnWire(s, rects, tail)
    ensures AllSized(acc + rects)
    ensures ReadRects(s, |rects|, AllGot(acc, height), need, height, acc)
            == ReadUpdates(tail, AllGot(acc + rects, height), need, height, acc + rects)
    decreases |rects|
  {
    if rects == [] {
      assert acc + rects == acc;
    } else {
      RectsNext(s, |rects|, AllGot(acc, height), need, height, acc);
      AllGotSnoc(acc, rects[0], height);
      WireDecodes(s[12 + |rects[0].raw|..], rects[1..], tail, need, height, acc + [rects[0]]);
      HeadTail(acc, rects);
    }
  }

  /** The rectangle loop recovers exactly the rectangles the server encoded. */
  lemma DecodeRects(rects: seq<Rect>, tail: Octets, need: nat, height: nat, acc: seq<Rect>)
    requires AllSized(acc) && forall i :: 0 <= i < |rects| ==> Sendable(rects[i])
    ensures AllSized(acc + rects)
    ensures ReadRects(EncodeRects(rects, tail), |rects|, AllGot(acc, height), need, height, acc)
            == ReadUpdates(tail, AllGot(acc + rects, height), need, height, acc + rects)
  {
    EncodedOnWire(rects, tail);
    WireDecodes(EncodeRects(rects, tail), rects, tail, need, height, acc);
  }

  lemma MessageParts(u: Update, more: Octets)
    requires SendableUpdate(u)
    ensures var s := EncodeUpdate(u, more);
            |s| >= 4 && s[0] == 0 && s[2..4] == PackU16(|u.rects|) && s[4..] == EncodeRects(u.rects, more)
  {
  }

  /** One message off the wire. */
  lemma DecodeOneUpdate(u: Update, more: Octets, need: nat, height: nat, acc: seq<Rect>)
    requires SendableUpdate(u) && AllSized(acc) && AllGot(acc, height) < need
    ensures AllSized(acc + u.rects)
    ensures ReadUpdates(EncodeUpdate(u, more), AllGot(acc, height), need, height, acc)
            == ReadUpdates(more, AllGot(acc + u.rects, height), need, height, acc + u.rects)
  {
    MessageParts(u, more);
    DecodeRects(u.rects, more, need, height, acc);
  }

  /** The decoder inverts the server: it recovers every rectangle, in order, and stops where the counter says. */
  lemma {:induction false} DecodeUpdates(us: seq<Update>, tail: Octets, need: nat, height: nat, acc: seq<Rect>)
    requires AllSendable(us) && AllSized(acc) && StopsAfter(us, acc, need, height)
    ensures ReadUpdates(EncodeUpdates(us, tail), AllGot(acc, height), need, height, acc)
            == Complete(acc + RectsOf(us), tail)
    decreases |us|
  {
    if us == [] {
      assert acc + RectsOf(us) == acc;
    } else {
      DecodeOneUpdate(us[0], EncodeUpdates(us[1..], tail), need, height, acc);
      DecodeUpdates(us[1..], tail, need, height, acc + us[0].rects);
      Assoc(acc, us[0].rects, RectsOf(us[1..]));
    }
  }

  ghost predicate Counted(d: Decoded, need: nat, height: nat) {
    d.Complete? ==> AllGot(d.rects, height) >= need
  }

  /** On every stream whatsoever, a completed decode has counted at least `need` bytes. */
  lemma {:induction false} DecodedReachesNeed(s: Octets, need: nat, height: nat, acc: seq<Rect>)
    requires AllSized(acc)
    ensures Counted(ReadUpdates(s, AllGot(acc, height), need, height, acc), need, height)
    decreases |s|, 0
  {
    if AllGot(acc, height) < need && |s| >= 4 {
      if s[0] != 0 {
        DecodedReachesNeed(s[4..], need, height, acc);
      } else {
        RectsReachNeed(s[4..], UnpackU16(s[2..4]), need, height, acc);
      }
    }
  }

  lemma {:induction false} RectsReachNeed(s: Octets, n: nat, need: nat, height: nat, acc: seq<Rect>)
    requires AllSized(acc)
    ensures Counted(ReadRects(s, n, AllGot(acc, height), need, height, acc), need, height)
    decreases |s|, 1
  {
    if n == 0 {
      DecodedReachesNeed(s, need, height, acc);
    } else {
      RectsNext(s, n, AllGot(acc, height), need, height, acc);
      if PieceOf(s).Raw? {
        var r := PieceOf(s).rect;
        AllGotSnoc(acc, r, height);
        RectsReachNeed(s[12 + |r.raw|..], n - 1, need, height, acc + [r]);
      }
    }
  }

  /** A completed decode whose rectangles fit the screen and carry the server's framebuffer. */
  ghost predicate CarriesServer(d: Decoded, fb: Octets, width: nat, height: nat)
    requires |fb| == width * height * 4
  {
    d.Complete? && AllSized(d.rects) && AllFit(d.rects, width, height) && AllCarry(d.rects, fb, width, height)
  }

  /**
   Whatever the server sent: rectangles that carry its framebuffer decode to that
   framebuffer exactly when it is black wherever they do not cover it, and always
   when they are disjoint.
   */
  lemma CaptureIsServer(s: Octets, fb: Octets, width: nat, height: nat)
    requires |fb| == width * height * 4
    requires CarriesServer(ReadUpdates(s, 0, width * height * 4, height, []), fb, width, height)
    ensures var d := ReadUpdates(s, 0, width * height * 4, height, []);
            && (CaptureOf(d, width, height) == Pixels(fb) <==> BlackWhereUncovered(d.rects, fb, width, height))
            && (PairwiseApart(d.rects, height) ==> CaptureOf(d, width, height) == Pixels(fb))
  {
    var rects := ReadUpdates(s, 0, width * height * 4, height, []).rects;
    DecodedReachesNeed(s, width * height * 4, height, []);
    PaintsServerIff(rects, fb, width, height);
    if PairwiseApart(rects, height) {
      DisjointCaptureIsServer(rects, fb, width, height);
    }
  }
}
