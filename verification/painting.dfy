/**
 What the flat painting loop means on the two-dimensional screen: each pixel
 shows the last rectangle that covers it, and zero when none does. A rectangle
 may overhang the bottom of the screen; one that passes the right edge spills.
 */
module Painting {
  import opened Bytes
  import opened Arithmetic
  import opened Framebuffer

  /** How many of the rectangle's rows are on the screen. */
  ghost function VisibleRows(r: Rect, height: nat): nat {
    if r.y >= height then 0 else Min(r.h, height - r.y)
  }

  /** What the rectangle has on the screen, if anything, ends at the right edge or before it. */
  ghost predicate Fits(r: Rect, width: nat, height: nat) {
    r.w == 0 || VisibleRows(r, height) == 0 || r.x + r.w <= width
  }

  ghost predicate AllFit(rects: seq<Rect>, width: nat, height: nat) {
    forall i :: 0 <= i < |rects| ==> Fits(rects[i], width, height)
  }

  ghost predicate Covers(r: Rect, px: int, py: int) {
    r.x <= px < r.x + r.w && r.y <= py < r.y + r.h
  }

  ghost predicate OnScreen(width: nat, height: nat, px: int, py: int, c: int) {
    0 <= px < width && 0 <= py < height && 0 <= c < 4
  }

  /** Component `c` of pixel (px, py) in the rectangle's own pixel data. */
  ghost function Sent(r: Rect, px: int, py: int, c: int): Byte
    requires Sized(r) && Covers(r, px, py) && 0 <= c < 4
  {
    RowFits(r, py - r.y);
    RowOf(r, py - r.y)[(px - r.x) * 4 + c]
  }

  /** The two-dimensional meaning of painting `rects` in order. */
  ghost function Shown(rects: seq<Rect>, px: int, py: int, c: int): Byte
    requires AllSized(rects) && 0 <= c < 4
  {
    if rects == [] then 0
    else
      var last := rects[|rects| - 1];
      if Covers(last, px, py) then Sent(last, px, py, c) else Shown(rects[..|rects| - 1], px, py, c)
  }

  // ------------------------------------------------------------------
  // Row-major addresses
  // ------------------------------------------------------------------

  lemma IndexInRange(width: nat, height: nat, px: int, py: int, c: int)
    requires OnScreen(width, height, px, py, c)
    ensures 0 <= Index(width, px, py, c) < width * height * 4
  {
    MulMono(py + 1, height, width);
    MulMono(0, py, width);
    MulNext(py, width);
  }

  /** A row segment that stays inside the screen holds exactly the pixels one expects. */
  lemma SegmentHolds(width: nat, px: int, py: int, c: int, x: int, y: int, w: int)
    requires 0 <= px < width && 0 <= c < 4 && 0 <= x && 0 <= w && x + w <= width
    ensures Index(width, x, y, 0) <= Index(width, px, py, c) < Index(width, x, y, 0) + w * 4
            <==> py == y && x <= px < x + w
  {
    if py < y {
      MulMono(py + 1, y, width);
      MulNext(py, width);
    } else if y < py {
      MulMono(y + 1, py, width);
      MulNext(y, width);
    }
  }

  lemma DivBelow(cell: nat, width: nat, height: nat)
    requires cell < width * height
    ensures width > 0 && cell == (cell / width) * width + cell % width && cell / width < height
  {
    assert width == 0 ==> width * height == 0;
    if cell / width >= height {
      MulMono(height, cell / width, width);
    }
  }

  /** Every byte of the buffer belongs to some pixel of the screen. */
  lemma IndexOnto(width: nat, height: nat, k: nat) returns (px: int, py: int, c: int)
    requires k < width * height * 4
    ensures OnScreen(width, height, px, py, c) && k == Index(width, px, py, c)
  {
    DivBelow(k / 4, width, height);
    px, py, c := k / 4 % width, k / 4 / width, k % 4;
  }

  // ------------------------------------------------------------------
  // Refinement of the 2-D picture by the flat slice writes
  // ------------------------------------------------------------------

  lemma SegmentFits(r: Rect, row: nat, width: nat, height: nat)
    requires row < r.h && r.y + row < height && r.x + r.w <= width
    ensures 0 <= Index(width, r.x, r.y + row, 0)
    ensures Index(width, r.x, r.y + row, 0) + r.w * 4 <= width * height * 4
  {
    MulNat(r.y + row, width);
    MulMono(r.y + row + 1, height, width);
    MulNext(r.y + row, width);
  }

  lemma EmptyRow(out: Octets, r: Rect, row: nat, width: nat, height: nat)
    requires Sized(r) && row < r.h && r.w == 0
    ensures PaintRow(out, r, row, width, height) == out
  {
    MulNat(r.y + row, width);
    if r.y + row < height {
      var start := Min(Index(width, r.x, r.y + row, 0), |out|);
      assert RowOf(r, row) == [];
      assert out[..start] + [] + out[start..] == out;
    }
  }

  lemma PaintRowMeans(out: Octets, r: Rect, row: nat, width: nat, height: nat, px: int, py: int, c: int)
    requires Sized(r) && row < r.h && Fits(r, width, height) && |out| == width * height * 4
    requires OnScreen(width, height, px, py, c)
    ensures 0 <= Index(width, px, py, c) < |out| == |PaintRow(out, r, row, width, height)|
    ensures PaintRow(out, r, row, width, height)[Index(width, px, py, c)]
            == if Covers(r, px, py) && py == r.y + row then Sent(r, px, py, c) else out[Index(width, px, py, c)]
  {
    IndexInRange(width, height, px, py, c);
    if r.w == 0 {
      EmptyRow(out, r, row, width, height);
    } else if r.y + row < height {
      SegmentFits(r, row, width, height);
      SegmentHolds(width, px, py, c, r.x, r.y + row, r.w);
      if py == r.y + row && r.x <= px < r.x + r.w {
        assert Index(width, px, py, c) - Index(width, r.x, r.y + row, 0) == (px - r.x) * 4 + c;
      }
    }
  }

  /** Component `k` of the buffer, after one more row. */
  lemma NextRowMeans(out: Octets, r: Rect, row: nat, width: nat, height: nat, px: int, py: int, c: int, k: nat)
    requires Sized(r) && row < r.h && Fits(r, width, height)
    requires |PaintRows(out, r, row, width, height)| == width * height * 4
    requires OnScreen(width, height, px, py, c) && k == Index(width, px, py, c)
    ensures |PaintRows(out, r, row + 1, width, height)| == |PaintRows(out, r, row, width, height)| > k
    ensures PaintRows(out, r, row + 1, width, height)[k]
            == if Covers(r, px, py) && py == r.y + row then Sent(r, px, py, c)
               else PaintRows(out, r, row, width, height)[k]
  {
    PaintRowMeans(PaintRows(out, r, row, width, height), r, row, width, height, px, py, c);
    PaintRowsNext(out, r, row, width, height);
  }

  lemma {:induction false} PaintRowsAt(out: Octets, r: Rect, n: nat, width: nat, height: nat, px: int, py: int, c: int,
                                       k: nat)
    requires Sized(r) && n <= r.h && Fits(r, width, height) && |out| == width * height * 4
    requires OnScreen(width, height, px, py, c) && k == Index(width, px, py, c) && k < |out|
    ensures |PaintRows(out, r, n, width, height)| == |out|
    ensures PaintRows(out, r, n, width, height)[k]
            == if Covers(r, px, py) && py < r.y + n then Sent(r, px, py, c) else out[k]
  {
    if n > 0 {
      PaintRowsAt(out, r, n - 1, width, height, px, py, c, k);
      NextRowMeans(out, r, n - 1, width, height, px, py, c, k);
    }
  }

  lemma PaintRowsMeans(out: Octets, r: Rect, n: nat, width: nat, height: nat, px: int, py: int, c: int)
    requires Sized(r) && n <= r.h && Fits(r, width, height) && |out| == width * height * 4
    requires OnScreen(width, height, px, py, c)
    ensures 0 <= Index(width, px, py, c) < |out| == |PaintRows(out, r, n, width, height)|
    ensures PaintRows(out, r, n, width, height)[Index(width, px, py, c)]
            == if Covers(r, px, py) && py < r.y + n then Sent(r, px, py, c) else out[Index(width, px, py, c)]
  {
    IndexInRange(width, height, px, py, c);
    PaintRowsAt(out, r, n, width, height, px, py, c, Index(width, px, py, c));
  }

  lemma {:induction false} PaintLength(rects: seq<Rect>, width: nat, height: nat)
    requires AllSized(rects) && AllFit(rects, width, height)
    ensures |Paint(rects, width, height)| == width * height * 4
  {
    if rects != [] {
      var last := rects[|rects| - 1];
      PaintLength(rects[..|rects| - 1], width, height);
      KeepsLengthIff(Paint(rects[..|rects| - 1], width, height), last, width, height);
      FittingRowsEnd(last, width, height);
    }
  }

  /**
   For any rectangles that fit, overlapping ones and ones that overhang the
   bottom included, the buffer keeps its length and each pixel shows the last
   rectangle covering it, or zero.
   */
  lemma {:induction false} PaintMeans(rects: seq<Rect>, width: nat, height: nat, px: int, py: int, c: int)
    requires AllSized(rects) && AllFit(rects, width, height)
    requires OnScreen(width, height, px, py, c)
    ensures 0 <= Index(width, px, py, c) < |Paint(rects, width, height)| == width * height * 4
    ensures Paint(rects, width, height)[Index(width, px, py, c)] == Shown(rects, px, py, c)
  {
    IndexInRange(width, height, px, py, c);
    if rects != [] {
      var last := rects[|rects| - 1];
      var front := rects[..|rects| - 1];
      PaintMeans(front, width, height, px, py, c);
      PaintRowsMeans(Paint(front, width, height), last, last.h, width, height, px, py, c);
    }
  }

  // ------------------------------------------------------------------
  // The length of the buffer
  // ------------------------------------------------------------------

  /** Where the pixels of row `row` end, counted in pixels from the start of the buffer. */
  ghost function RowEnd(r: Rect, row: int, width: nat): int {
    (r.y + row) * width + r.x + r.w
  }

  /** The last of the first `rows` rows, when there is one with pixels, ends inside the buffer. */
  ghost predicate LastRowFits(r: Rect, rows: nat, width: nat, size: int) {
    rows == 0 || r.w == 0 || RowEnd(r, rows - 1, width) <= size
  }

  lemma RowEndGrows(r: Rect, row: int, width: nat)
    ensures RowEnd(r, row, width) <= RowEnd(r, row + 1, width)
  {
    MulNext(r.y + row, width);
  }

  lemma FittingRowsEnd(r: Rect, width: nat, height: nat)
    requires Fits(r, width, height)
    ensures LastRowFits(r, VisibleRows(r, height), width, width * height)
  {
    var rows := VisibleRows(r, height);
    if rows > 0 {
      MulMono(r.y + rows, height, width);
      MulNext(r.y + rows - 1, width);
    }
  }

  lemma RowKeepsLength(out: Octets, r: Rect, row: nat, width: nat, height: nat)
    requires Sized(r) && row < r.h && r.y + row < height
    ensures |PaintRow(out, r, row, width, height)| >= |out|
    ensures |PaintRow(out, r, row, width, height)| == |out|
            <==> r.w == 0 || RowEnd(r, row, width) * 4 <= |out|
  {
    MulNat(r.y + row, width);
    var sl := RowOf(r, row);
    assert sl == [] <==> r.w == 0;
  }

  /** The induction step: what appending one row does to the length test. */
  lemma LengthStep(r: Rect, n: nat, width: nat, height: nat, size: nat, prev: nat, next: nat)
    requires 0 < n <= r.h && size * 4 <= prev <= next
    requires prev == size * 4 <==> LastRowFits(r, Min(n - 1, VisibleRows(r, height)), width, size)
    requires if r.y + n - 1 < height then next == prev <==> r.w == 0 || RowEnd(r, n - 1, width) * 4 <= prev
             else next == prev
    ensures next == size * 4 <==> LastRowFits(r, Min(n, VisibleRows(r, height)), width, size)
  {
    RowEndGrows(r, n - 2, width);
  }

  lemma {:induction false} RowsKeepLength(out: Octets, r: Rect, n: nat, width: nat, height: nat, size: nat)
    requires Sized(r) && n <= r.h && |out| == size * 4
    ensures |PaintRows(out, r, n, width, height)| >= |out|
    ensures |PaintRows(out, r, n, width, height)| == |out|
            <==> LastRowFits(r, Min(n, VisibleRows(r, height)), width, size)
  {
    if n > 0 {
      RowsKeepLength(out, r, n - 1, width, height, size);
      var prev := PaintRows(out, r, n - 1, width, height);
      var next := PaintRow(prev, r, n - 1, width, height);
      if r.y + n - 1 < height {
        RowKeepsLength(prev, r, n - 1, width, height);
      }
      LengthStep(r, n, width, height, size, |prev|, |next|);
    }
  }

  /**
   Painting one rectangle leaves the buffer `width * height * 4` bytes long if
   and only if its last visible row, when it has one, ends inside the buffer. A
   rectangle that is only too wide, above the bottom row, spills into the next
   row instead.
   */
  lemma KeepsLengthIff(out: Octets, r: Rect, width: nat, height: nat)
    requires Sized(r) && |out| == width * height * 4
    ensures |PaintRows(out, r, r.h, width, height)| == |out|
            <==> LastRowFits(r, VisibleRows(r, height), width, width * height)
  {
    MulNat(width, height);
    RowsKeepLength(out, r, r.h, width, height, width * height);
  }

  // ------------------------------------------------------------------
  // Exactly the rectangles that are painted as meant
  // ------------------------------------------------------------------

  /** After painting `r`, the buffer has its length, shows `r` where it covers and is unchanged elsewhere. */
  ghost predicate PaintsAsMeant(out: Octets, r: Rect, width: nat, height: nat)
    requires Sized(r) && |out| == width * height * 4
  {
    var out' := PaintRows(out, r, r.h, width, height);
    && |out'| == |out|
    && forall px, py, c | OnScreen(width, height, px, py, c) :: ShowsAt(out, out', r, width, height, px, py, c)
  }

  ghost predicate ShowsAt(out: Octets, out': Octets, r: Rect, width: nat, height: nat, px: int, py: int, c: int)
    requires Sized(r) && |out| == |out'| == width * height * 4 && OnScreen(width, height, px, py, c)
  {
    IndexInRange(width, height, px, py, c);
    var k := Index(width, px, py, c);
    out'[k] == if Covers(r, px, py) then Sent(r, px, py, c) else out[k]
  }

  lemma FittingPaintsAsMeant(out: Octets, r: Rect, width: nat, height: nat)
    requires Sized(r) && |out| == width * height * 4 && Fits(r, width, height)
    ensures PaintsAsMeant(out, r, width, height)
  {
    KeepsLengthIff(out, r, width, height);
    FittingRowsEnd(r, width, height);
    var out' := PaintRows(out, r, r.h, width, height);
    forall px, py, c | OnScreen(width, height, px, py, c) ensures ShowsAt(out, out', r, width, height, px, py, c) {
      PaintRowsMeans(out, r, r.h, width, height, px, py, c);
    }
  }

  lemma {:induction false} HiddenRowsSkipped(out: Octets, r: Rect, n: nat, width: nat, height: nat)
    requires Sized(r) && VisibleRows(r, height) <= n <= r.h
    ensures PaintRows(out, r, n, width, height) == PaintRows(out, r, VisibleRows(r, height), width, height)
  {
    if n > VisibleRows(r, height) {
      HiddenRowsSkipped(out, r, n - 1, width, height);
    }
  }

  ghost function LastOctet(r: Rect, row: nat): Byte
    requires Sized(r) && row < r.h && r.w > 0
  {
    RowOf(r, row)[r.w * 4 - 1]
  }

  /** The last octet of a row that ends inside the buffer is found just before the row's end. */
  lemma RowEndsThere(out: Octets, r: Rect, row: nat, width: nat, height: nat)
    requires Sized(r) && row < r.h && r.w > 0 && r.y + row < height && RowEnd(r, row, width) * 4 <= |out|
    ensures 0 <= RowEnd(r, row, width) * 4 - 1 < |PaintRow(out, r, row, width, height)|
    ensures PaintRow(out, r, row, width, height)[RowEnd(r, row, width) * 4 - 1] == LastOctet(r, row)
  {
    MulNat(r.y + row, width);
  }

  /** A visible row that passes the right edge ends below every row of the rectangle that is on the screen. */
  lemma SpillIsOutside(r: Rect, width: nat, height: nat, px: int, py: int)
    requires VisibleRows(r, height) > 0 && r.x + r.w > width && 0 <= px < width && py < height
    requires py * width + px == RowEnd(r, VisibleRows(r, height) - 1, width) - 1
    ensures !Covers(r, px, py)
  {
    var rows := VisibleRows(r, height);
    MulNext(r.y + rows - 1, width);
    if py < r.y + rows {
      MulMono(py + 1, r.y + rows, width);
      MulNext(py, width);
    }
  }

  /** A buffer in which the spill of a rectangle that does not fit shows. */
  ghost function Plain(r: Rect, width: nat, height: nat): (out: Octets)
    requires Sized(r) && !Fits(r, width, height)
    ensures |out| == width * height * 4
  {
    MulNat(width, height);
    var b: Byte := if LastOctet(r, VisibleRows(r, height) - 1) == 0 then 1 else 0;
    seq(width * height * 4, _ => b)
  }

  lemma KeptLengths(out: Octets, r: Rect, row: nat, width: nat, height: nat, size: nat)
    requires Sized(r) && r.w > 0 && |out| == size * 4 && row + 1 == VisibleRows(r, height)
    requires |PaintRows(out, r, r.h, width, height)| == |out|
    ensures |PaintRows(out, r, row, width, height)| == |out| && RowEnd(r, row, width) * 4 <= |out|
  {
    RowsKeepLength(out, r, r.h, width, height, size);
    RowsKeepLength(out, r, row, width, height, size);
    RowEndGrows(r, row - 1, width);
  }

  lemma LastVisibleRow(out: Octets, r: Rect, row: nat, width: nat, height: nat)
    requires Sized(r) && row + 1 == VisibleRows(r, height)
    ensures row < r.h
    ensures PaintRows(out, r, r.h, width, height)
            == PaintRow(PaintRows(out, r, row, width, height), r, row, width, height)
  {
    HiddenRowsSkipped(out, r, r.h, width, height);
    PaintRowsNext(out, r, row, width, height);
  }

  /** If the buffer keeps its length, the last octet of the last visible row is still where that row put it. */
  lemma LastOctetStays(out: Octets, r: Rect, row: nat, width: nat, height: nat, size: nat)
    requires Sized(r) && r.w > 0 && |out| == size * 4 && row + 1 == VisibleRows(r, height)
    requires |PaintRows(out, r, r.h, width, height)| == |out|
    ensures var k := RowEnd(r, row, width) * 4 - 1;
            0 <= k < |out| && PaintRows(out, r, r.h, width, height)[k] == LastOctet(r, row)
  {
    KeptLengths(out, r, row, width, height, size);
    LastVisibleRow(out, r, row, width, height);
    RowEndsThere(PaintRows(out, r, row, width, height), r, row, width, height);
  }

  lemma SpillingDoesNot(r: Rect, width: nat, height: nat)
    requires Sized(r) && !Fits(r, width, height)
    ensures !PaintsAsMeant(Plain(r, width, height), r, width, height)
  {
    var out, row := Plain(r, width, height), VisibleRows(r, height) - 1;
    var out' := PaintRows(out, r, r.h, width, height);
    if |out'| == |out| {
      MulNat(width, height);
      LastOctetStays(out, r, row, width, height, width * height);
      var px, py, c := IndexOnto(width, height, RowEnd(r, row, width) * 4 - 1);
      SpillIsOutside(r, width, height, px, py);
      assert !ShowsAt(out, out', r, width, height, px, py, c);
    }
  }

  /**
   The exact condition: a rectangle is painted as it is meant, on every buffer of
   the size of the screen, if and only if it has no pixel on a visible row, or
   does not pass the right edge.
   */
  lemma PaintsAsMeantIff(r: Rect, width: nat, height: nat)
    requires Sized(r)
    ensures Fits(r, width, height)
            <==> forall out: Octets :: |out| == width * height * 4 ==> PaintsAsMeant(out, r, width, height)
  {
    if Fits(r, width, height) {
      forall out: Octets | |out| == width * height * 4 ensures PaintsAsMeant(out, r, width, height) {
        FittingPaintsAsMeant(out, r, width, height);
      }
    } else {
      SpillingDoesNot(r, width, height);
    }
  }
}
