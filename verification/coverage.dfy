/**
 From a byte count to a complete picture. The decoder stops on `got` alone;
 these lemmas say when that count means that every pixel was written.
 */
module Coverage {
  import opened Bytes
  import opened Arithmetic
  import opened Framebuffer
  import opened Painting

  ghost function Block(x: int, y: int, w: nat, h: nat): set<(int, int)> {
    set px, py | x <= px < x + w && y <= py < y + h :: (px, py)
  }

  /** The pixels of the rectangle that are above the bottom of the screen. */
  ghost function Cells(r: Rect, height: nat): set<(int, int)> {
    Block(r.x, r.y, r.w, VisibleRows(r, height))
  }

  ghost function AllCells(rects: seq<Rect>, height: nat): set<(int, int)> {
    if rects == [] then {} else AllCells(rects[..|rects| - 1], height) + Cells(rects[|rects| - 1], height)
  }

  ghost function Area(rects: seq<Rect>, height: nat): int {
    if rects == [] then 0
    else
      var last := rects[|rects| - 1];
      Area(rects[..|rects| - 1], height) + last.w * VisibleRows(last, height)
  }

  /** The two rectangles have no pixel above the bottom of the screen in common. */
  ghost predicate Apart(a: Rect, b: Rect, height: nat) {
    forall px, py :: py < height && Covers(a, px, py) ==> !Covers(b, px, py)
  }

  ghost predicate PairwiseApart(rects: seq<Rect>, height: nat) {
    forall i, j :: 0 <= i < j < |rects| ==> Apart(rects[i], rects[j], height)
  }

  ghost predicate SomeCovers(rects: seq<Rect>, px: int, py: int) {
    exists i :: 0 <= i < |rects| && Covers(rects[i], px, py)
  }

  ghost predicate CoversScreen(rects: seq<Rect>, width: nat, height: nat) {
    forall px, py :: 0 <= px < width && 0 <= py < height ==> SomeCovers(rects, px, py)
  }

  // ------------------------------------------------------------------
  // Counting
  // ------------------------------------------------------------------

  lemma {:induction false} LineSize(x: int, y: int, w: nat)
    ensures |Block(x, y, w, 1)| == w
  {
    if w == 0 {
      assert Block(x, y, 0, 1) == {};
    } else {
      LineSize(x, y, w - 1);
      assert Block(x, y, w, 1) == Block(x, y, w - 1, 1) + {(x + w - 1, y)};
    }
  }

  lemma BlockGrows(x: int, y: int, w: nat, h: nat)
    requires h > 0
    ensures |Block(x, y, w, h)| == |Block(x, y, w, h - 1)| + w
  {
    LineSize(x, y + h - 1, w);
    assert Block(x, y, w, h) == Block(x, y, w, h - 1) + Block(x, y + h - 1, w, 1);
    assert Block(x, y, w, h - 1) !! Block(x, y + h - 1, w, 1);
  }

  lemma {:induction false} BlockSize(x: int, y: int, w: nat, h: nat)
    ensures |Block(x, y, w, h)| == w * h
  {
    if h == 0 {
      assert Block(x, y, w, 0) == {};
    } else {
      BlockSize(x, y, w, h - 1);
      BlockGrows(x, y, w, h);
    }
  }

  lemma {:induction false} InAllCells(rects: seq<Rect>, height: nat, px: int, py: int)
    ensures (px, py) in AllCells(rects, height) <==> py < height && SomeCovers(rects, px, py)
  {
    if rects != [] {
      var front, last := rects[..|rects| - 1], rects[|rects| - 1];
      InAllCells(front, height, px, py);
      assert (px, py) in Cells(last, height) <==> py < height && Covers(last, px, py);
      if SomeCovers(front, px, py) {
        var i :| 0 <= i < |front| && Covers(front[i], px, py);
        assert Covers(rects[i], px, py);
      }
    }
  }

  lemma ApartFromAll(front: seq<Rect>, last: Rect, height: nat)
    ensures AllCells(front, height) * Cells(last, height) == {}
            <==> forall i :: 0 <= i < |front| ==> Apart(front[i], last, height)
  {
    var common := AllCells(front, height) * Cells(last, height);
    if common == {} {
      forall i, px, py | 0 <= i < |front| && py < height && Covers(front[i], px, py)
        ensures !Covers(last, px, py)
      {
        InAllCells(front, height, px, py);
        assert SomeCovers(front, px, py);
        assert (px, py) !in common;
      }
    } else {
      var cell :| cell in common;
      InAllCells(front, height, cell.0, cell.1);
      var i :| 0 <= i < |front| && Covers(front[i], cell.0, cell.1);
      assert !Apart(front[i], last, height);
    }
  }

  lemma UnionSize<T>(a: set<T>, b: set<T>)
    ensures |a + b| == |a| + |b| - |a * b|
  {
    assert a + b == a + (b - a);
    assert b == (b - a) + a * b;
    assert |b| == |b - a| + |a * b|;
  }

  lemma PairwiseApartSnoc(rects: seq<Rect>, height: nat)
    requires rects != []
    ensures PairwiseApart(rects, height) <==>
            PairwiseApart(rects[..|rects| - 1], height) &&
            forall i :: 0 <= i < |rects| - 1 ==> Apart(rects[i], rects[|rects| - 1], height)
  {
    var front, last := rects[..|rects| - 1], rects[|rects| - 1];
    if PairwiseApart(rects, height) {
      forall i, j | 0 <= i < j < |front| ensures Apart(front[i], front[j], height) {
        assert Apart(rects[i], rects[j], height);
      }
    }
    if PairwiseApart(front, height) && forall i :: 0 <= i < |rects| - 1 ==> Apart(rects[i], last, height) {
      forall i, j | 0 <= i < j < |rects| ensures Apart(rects[i], rects[j], height) {
        if j < |front| { assert Apart(front[i], front[j], height); }
      }
    }
  }

  /**
   Rectangles cover as many pixels as their visible areas add up to exactly when
   no two of them overlap on the screen.
   */
  lemma {:induction false} CoveredCount(rects: seq<Rect>, height: nat)
    ensures |AllCells(rects, height)| <= Area(rects, height)
    ensures |AllCells(rects, height)| == Area(rects, height) <==> PairwiseApart(rects, height)
  {
    if rects != [] {
      var front, last := rects[..|rects| - 1], rects[|rects| - 1];
      CoveredCount(front, height);
      BlockSize(last.x, last.y, last.w, VisibleRows(last, height));
      UnionSize(AllCells(front, height), Cells(last, height));
      ApartFromAll(front, last, height);
      PairwiseApartSnoc(rects, height);
      var common := AllCells(front, height) * Cells(last, height);
      assert |common| == 0 <==> common == {};
      assert forall i :: 0 <= i < |front| ==> front[i] == rects[i];
    }
  }

  lemma FittingCoversOnScreen(r: Rect, width: nat, height: nat, px: int, py: int)
    requires Fits(r, width, height) && Covers(r, px, py) && py < height
    ensures 0 <= px < width && 0 <= py
  {
  }

  lemma CellsOnScreen(rects: seq<Rect>, width: nat, height: nat)
    requires AllFit(rects, width, height)
    ensures AllCells(rects, height) <= Block(0, 0, width, height)
    ensures AllCells(rects, height) == Block(0, 0, width, height) <==> CoversScreen(rects, width, height)
  {
    forall cell | cell in AllCells(rects, height) ensures cell in Block(0, 0, width, height) {
      InAllCells(rects, height, cell.0, cell.1);
      var i :| 0 <= i < |rects| && Covers(rects[i], cell.0, cell.1);
      FittingCoversOnScreen(rects[i], width, height, cell.0, cell.1);
    }
    if CoversScreen(rects, width, height) {
      forall cell | cell in Block(0, 0, width, height) ensures cell in AllCells(rects, height) {
        InAllCells(rects, height, cell.0, cell.1);
      }
    } else {
      var px, py :| 0 <= px < width && 0 <= py < height && !SomeCovers(rects, px, py);
      InAllCells(rects, height, px, py);
      assert (px, py) in Block(0, 0, width, height);
    }
  }

  lemma SubsetSize<T>(a: set<T>, b: set<T>)
    requires a <= b
    ensures |a| <= |b|
    ensures |a| == |b| <==> a == b
  {
    assert b == a + (b - a);
    assert |b| == |a| + |b - a|;
  }

  /** When visible areas add up to the screen, every pixel is covered exactly when no two rectangles overlap. */
  lemma ExactAreaCoversIff(rects: seq<Rect>, width: nat, height: nat)
    requires AllFit(rects, width, height) && Area(rects, height) == width * height
    ensures CoversScreen(rects, width, height) <==> PairwiseApart(rects, height)
  {
    CoveredCount(rects, height);
    CellsOnScreen(rects, width, height);
    BlockSize(0, 0, width, height);
    SubsetSize(AllCells(rects, height), Block(0, 0, width, height));
  }

  /** Disjoint visible areas never exceed the screen, so reaching it means covering it. */
  lemma ApartAreaCovers(rects: seq<Rect>, width: nat, height: nat)
    requires AllFit(rects, width, height) && PairwiseApart(rects, height)
    ensures Area(rects, height) <= width * height
    ensures Area(rects, height) == width * height <==> CoversScreen(rects, width, height)
  {
    CoveredCount(rects, height);
    CellsOnScreen(rects, width, height);
    BlockSize(0, 0, width, height);
    SubsetSize(AllCells(rects, height), Block(0, 0, width, height));
  }

  // ------------------------------------------------------------------
  // The counter
  // ------------------------------------------------------------------

  lemma {:induction false} RowsGotVisible(r: Rect, n: nat, height: nat)
    requires n <= r.h
    ensures RowsGot(r, n, height) == r.w * Min(n, VisibleRows(r, height)) * 4
  {
    if n > 0 {
      RowsGotVisible(r, n - 1, height);
      MulNext(n - 1, r.w);
    }
  }

  /** `got` is exactly four times the summed visible areas, whatever the rectangles are. */
  lemma {:induction false} GotIsArea(rects: seq<Rect>, height: nat)
    ensures AllGot(rects, height) == Area(rects, height) * 4
  {
    if rects != [] {
      var front, last := rects[..|rects| - 1], rects[|rects| - 1];
      GotIsArea(front, height);
      RowsGotVisible(last, last.h, height);
    }
  }

  // ------------------------------------------------------------------
  // The picture
  // ------------------------------------------------------------------

  /** The rectangle carries what the server's framebuffer shows at its place, as far as that is on the screen. */
  ghost predicate Carries(r: Rect, fb: Octets, width: nat, height: nat)
    requires Sized(r) && |fb| == width * height * 4
  {
    forall px, py, c :: Covers(r, px, py) && OnScreen(width, height, px, py, c) ==>
                          Sent(r, px, py, c) == At(fb, width, height, px, py, c)
  }

  ghost predicate AllCarry(rects: seq<Rect>, fb: Octets, width: nat, height: nat)
    requires AllSized(rects) && |fb| == width * height * 4
  {
    forall i :: 0 <= i < |rects| ==> Carries(rects[i], fb, width, height)
  }

  ghost function At(fb: Octets, width: nat, height: nat, px: int, py: int, c: int): Byte
    requires |fb| == width * height * 4 && OnScreen(width, height, px, py, c)
  {
    IndexInRange(width, height, px, py, c);
    fb[Index(width, px, py, c)]
  }

  /** What is not covered is black on the server too. */
  ghost predicate BlackWhereUncovered(rects: seq<Rect>, fb: Octets, width: nat, height: nat)
    requires |fb| == width * height * 4
  {
    forall px, py, c | OnScreen(width, height, px, py, c) && !SomeCovers(rects, px, py) ::
      At(fb, width, height, px, py, c) == 0
  }

  lemma {:induction false} ShownOfServer(rects: seq<Rect>, fb: Octets, width: nat, height: nat, px: int, py: int, c: int)
    requires AllSized(rects) && |fb| == width * height * 4 && AllCarry(rects, fb, width, height)
    requires OnScreen(width, height, px, py, c)
    ensures Shown(rects, px, py, c) == if SomeCovers(rects, px, py) then At(fb, width, height, px, py, c) else 0
  {
    if rects != [] {
      var front, last := rects[..|rects| - 1], rects[|rects| - 1];
      ShownOfServer(front, fb, width, height, px, py, c);
      if Covers(last, px, py) {
        assert Carries(last, fb, width, height);
      } else if SomeCovers(rects, px, py) {
        var i :| 0 <= i < |rects| && Covers(rects[i], px, py);
        assert Covers(front[i], px, py);
      }
    }
  }

  lemma PaintedAt(rects: seq<Rect>, fb: Octets, width: nat, height: nat, px: int, py: int, c: int)
    requires AllSized(rects) && AllFit(rects, width, height) && |fb| == width * height * 4
    requires AllCarry(rects, fb, width, height) && OnScreen(width, height, px, py, c)
    ensures |Paint(rects, width, height)| == |fb|
    ensures At(Paint(rects, width, height), width, height, px, py, c)
            == if SomeCovers(rects, px, py) then At(fb, width, height, px, py, c) else 0
  {
    PaintMeans(rects, width, height, px, py, c);
    ShownOfServer(rects, fb, width, height, px, py, c);
  }

  /**
   Rectangles that carry the server's pixels, overlapping or not and however many
   bytes they count, paint the server's framebuffer if and only if it is black
   wherever they do not cover it.
   */
  lemma PaintsServerIff(rects: seq<Rect>, fb: Octets, width: nat, height: nat)
    requires AllSized(rects) && AllFit(rects, width, height) && |fb| == width * height * 4
    requires AllCarry(rects, fb, width, height)
    ensures Paint(rects, width, height) == fb <==> BlackWhereUncovered(rects, fb, width, height)
  {
    var out := Paint(rects, width, height);
    PaintLength(rects, width, height);
    if out == fb {
      forall px, py, c | OnScreen(width, height, px, py, c) && !SomeCovers(rects, px, py)
        ensures At(fb, width, height, px, py, c) == 0
      {
        PaintedAt(rects, fb, width, height, px, py, c);
      }
    }
    if BlackWhereUncovered(rects, fb, width, height) {
      forall k | 0 <= k < |fb| ensures out[k] == fb[k] {
        var px, py, c := IndexOnto(width, height, k);
        PaintedAt(rects, fb, width, height, px, py, c);
      }
    }
  }

  /**
   Main result: pairwise disjoint rectangles for which the counter has reached
   the size of the screen paint exactly the server's framebuffer.
   */
  lemma DisjointCaptureIsServer(rects: seq<Rect>, fb: Octets, width: nat, height: nat)
    requires AllSized(rects) && AllFit(rects, width, height) && |fb| == width * height * 4
    requires AllCarry(rects, fb, width, height)
    requires PairwiseApart(rects, height) && AllGot(rects, height) >= width * height * 4
    ensures Paint(rects, width, height) == fb
  {
    GotIsArea(rects, height);
    ApartAreaCovers(rects, width, height);
    PaintsServerIff(rects, fb, width, height);
  }

  /**
   Without disjointness the counter is not enough: sending the left pixel of a
   2 by 1 screen twice satisfies it and leaves the right pixel black.
   */
  lemma OverlapLeavesHole()
    ensures var r := Rect(0, 0, 1, 1, [9, 9, 9, 9]);
            AllSized([r, r]) && AllFit([r, r], 2, 1) && AllGot([r, r], 1) >= 2 * 1 * 4 &&
            !PairwiseApart([r, r], 1) && !CoversScreen([r, r], 2, 1) && Shown([r, r], 1, 0, 0) == 0
  {
    var r := Rect(0, 0, 1, 1, [9, 9, 9, 9]);
    var rects := [r, r];
    assert rects[..1] == [r] && [r][..0] == [];
    GotIsArea(rects, 1);
    assert Covers(r, 0, 0) && !Covers(r, 1, 0);
    assert !Apart(rects[0], rects[1], 1);
    assert !SomeCovers(rects, 1, 0);
  }
}
