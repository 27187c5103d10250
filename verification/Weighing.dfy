/** How much of a scaled pixel comes from given source rectangles: the total applied weight,
    of 65536, of the source pixels that lie in them. */
module Weighing {
  import opened Geometry
  import opened Raster
  import opened Scale
  import A = Axis

  /** Which of n consecutive cells of row y lie in the rectangles. */
  ghost function Bits(rs: seq<Rect>, x0: int, y: int, n: nat): (bs: seq<int>)
    ensures |bs| == n && forall k :: 0 <= k < n ==> bs[k] == Bit(InSome(rs, x0 + k, y))
  {
    seq(n, k => Bit(InSome(rs, x0 + k, y)))
  }

  /** Weight of the rectangles in the horizontal pass of source row y, of 256. */
  ghost function RowWeight(rs: seq<Rect>, sw: int, dw: int, dx: int, y: int): int
    requires sw > 0 && 0 <= dx < dw
  {
    TapFacts(sw, dw, dx);
    TapWeights(sw, dw, dx);
    Dot(Taps(sw, dw, dx), Bits(rs, A.First(sw, dw, dx), y, Cnt(sw, dw, dx)))
  }

  ghost function RowWeights(rs: seq<Rect>, sw: int, sh: int, dw: int, dh: int, dx: int, dy: int): (ws: seq<int>)
    requires sw > 0 && sh > 0 && 0 <= dx < dw && 0 <= dy < dh
    ensures |ws| == Cnt(sh, dh, dy) && forall j :: 0 <= j < |ws| ==> ws[j] == RowWeight(rs, sw, dw, dx, A.First(sh, dh, dy) + j)
  {
    TapFacts(sh, dh, dy);
    seq(Cnt(sh, dh, dy), j => RowWeight(rs, sw, dw, dx, A.First(sh, dh, dy) + j))
  }

  ghost function ColumnWeight(rs: seq<Rect>, sw: int, sh: int, dw: int, dh: int, dx: int, dy: int): int
    requires sw > 0 && sh > 0 && 0 <= dx < dw && 0 <= dy < dh
  {
    TapWeights(sh, dh, dy);
    Dot(Taps(sh, dh, dy), RowWeights(rs, sw, sh, dw, dh, dx, dy))
  }

  /** Weight of the rectangles in a destination pixel; a single row is not weighted. */
  ghost function WeightOf(rs: seq<Rect>, sw: int, sh: int, dw: int, dh: int, dx: int, dy: int): int
    requires sw > 0 && sh > 0 && 0 <= dx < dw && 0 <= dy < dh
  {
    if Cnt(sh, dh, dy) == 1 then 256 * RowWeight(rs, sw, dw, dx, A.First(sh, dh, dy)) else ColumnWeight(rs, sw, sh, dw, dh, dx, dy)
  }

  // ---- weighted sums ----

  lemma {:induction false} DotZero(ws: seq<int>, bs: seq<int>)
    requires |ws| == |bs| && forall k :: 0 <= k < |ws| ==> 0 <= ws[k] && 0 <= bs[k]
    ensures 0 <= Dot(ws, bs)
    ensures Dot(ws, bs) == 0 ==> forall k :: 0 <= k < |ws| ==> ws[k] == 0 || bs[k] == 0
  {
    if ws != [] {
      var n := |ws| - 1;
      DotZero(ws[..n], bs[..n]);
      NonNegativeProduct(bs[n], ws[n]);
      if Dot(ws, bs) == 0 {
        forall k | 0 <= k < |ws|
          ensures ws[k] == 0 || bs[k] == 0
        {
          if k < n {
            assert ws[..n][k] == ws[k] && bs[..n][k] == bs[k];
          }
        }
      }
    }
  }

  lemma NonNegativeProduct(a: int, b: int)
    requires 0 <= a && 0 <= b
    ensures 0 <= a * b && (a * b == 0 ==> a == 0 || b == 0)
  {
  }

  lemma {:induction false} DotSame(ws: seq<int>, us: seq<int>, vs: seq<int>)
    requires |ws| == |us| == |vs| && forall k :: 0 <= k < |ws| ==> ws[k] == 0 || us[k] == vs[k]
    ensures Dot(ws, us) == Dot(ws, vs)
  {
    if ws != [] {
      var n := |ws| - 1;
      DotSame(ws[..n], us[..n], vs[..n]);
    }
  }

  /** The weighted sum of a - c * b is a times the weights less c times the sum of b. */
  lemma {:induction false} DotAffine(ws: seq<int>, vs: seq<int>, bs: seq<int>, a: int, c: int)
    requires |ws| == |vs| == |bs| && forall k :: 0 <= k < |ws| ==> vs[k] == a - c * bs[k]
    ensures Dot(ws, vs) == a * A.Sum(ws) - c * Dot(ws, bs)
  {
    if ws != [] {
      var n := |ws| - 1;
      DotAffine(ws[..n], vs[..n], bs[..n], a, c);
      AffineStep(A.Sum(ws[..n]), Dot(ws[..n], bs[..n]), ws[n], bs[n], a, c);
    }
  }

  lemma AffineStep(s: int, t: int, w: int, b: int, a: int, c: int)
    ensures a * s - c * t + (a - c * b) * w == a * (s + w) - c * (t + b * w)
  {
  }

  lemma RowWeightRange(rs: seq<Rect>, sw: int, dw: int, dx: int, y: int)
    requires sw > 0 && 0 <= dx < dw
    ensures 0 <= RowWeight(rs, sw, dw, dx, y) <= A.Sum(Taps(sw, dw, dx))
  {
    TapWeights(sw, dw, dx);
    DotBounds(Taps(sw, dw, dx), Bits(rs, A.First(sw, dw, dx), y, Cnt(sw, dw, dx)), 0, 1);
  }

  lemma WeightRange(rs: seq<Rect>, sw: int, sh: int, dw: int, dh: int, dx: int, dy: int)
    requires sw > 0 && sh > 0 && 0 <= dx < dw && 0 <= dy < dh
    ensures 0 <= WeightOf(rs, sw, sh, dw, dh, dx, dy)
    ensures forall y :: 0 <= RowWeight(rs, sw, dw, dx, y)
  {
    hide Taps, RowWeight;
    TapWeights(sh, dh, dy);
    forall y
      ensures 0 <= RowWeight(rs, sw, dw, dx, y)
    {
      RowWeightRange(rs, sw, dw, dx, y);
    }
    DotZero(Taps(sh, dh, dy), RowWeights(rs, sw, sh, dw, dh, dx, dy));
  }

  // ---- no weight, no change ----

  /** Agreement outside the rectangles, on the cells of one row. */
  lemma RowUnchanged(a: Img, b: Img, rs: seq<Rect>, dw: int, dx: int, sy: int, c: int)
    requires CanScale(a, dw, 1) && CanScale(b, dw, 1) && SameSize(a, b) && 0 <= dx < dw && 0 <= sy < a.h
    requires forall x :: A.First(a.w, dw, dx) <= x < A.End(a.w, dw, dx) ==> InSome(rs, x, sy) || AgreeAt(a, b, x, sy)
    requires RowWeight(rs, a.w, dw, dx, sy) == 0
    ensures HPass(a, dw, dx, sy, c) == HPass(b, dw, dx, sy, c)
  {
    TapFacts(a.w, dw, dx);
    TapWeights(a.w, dw, dx);
    var f, n := A.First(a.w, dw, dx), Cnt(a.w, dw, dx);
    hide A.First, A.WeightRow, Taps, Ch, Cnt;
    DotZero(Taps(a.w, dw, dx), Bits(rs, f, sy, n));
    var us, vs := Cells(a, sy, f, n, c), Cells(b, sy, f, n, c);
    forall k | 0 <= k < n
      ensures Taps(a.w, dw, dx)[k] == 0 || us[k] == vs[k]
    {
      CellAt(a, sy, f, n, c, k);
      CellAt(b, sy, f, n, c, k);
      if Taps(a.w, dw, dx)[k] != 0 {
        assert Bits(rs, f, sy, n)[k] == 0;
        assert AgreeAt(a, b, f + k, sy);
      }
    }
    DotSame(Taps(a.w, dw, dx), us, vs);
  }

  /** Rows without weight have the same horizontal pass in both images. */
  ghost predicate RowsAgree(a: Img, b: Img, rs: seq<Rect>, dw: int, dh: int, dx: int, dy: int, c: int)
    requires CanScale(a, dw, dh) && CanScale(b, dw, dh) && SameSize(a, b) && 0 <= dx < dw && 0 <= dy < dh
  {
    TapFacts(a.h, dh, dy);
    forall sy :: A.First(a.h, dh, dy) <= sy < A.First(a.h, dh, dy) + Cnt(a.h, dh, dy) && RowWeight(rs, a.w, dw, dx, sy) == 0 ==>
                   HPass(a, dw, dx, sy, c) == HPass(b, dw, dx, sy, c)
  }

  lemma NoColumnWeight(rs: seq<Rect>, sw: int, sh: int, dw: int, dh: int, dx: int, dy: int, j: int)
    requires sw > 0 && sh > 0 && 0 <= dx < dw && 0 <= dy < dh && ColumnWeight(rs, sw, sh, dw, dh, dx, dy) == 0
    requires 0 <= j < Cnt(sh, dh, dy)
    ensures |Taps(sh, dh, dy)| == Cnt(sh, dh, dy)
    ensures Taps(sh, dh, dy)[j] == 0 || RowWeight(rs, sw, dw, dx, A.First(sh, dh, dy) + j) == 0
  {
    TapWeights(sh, dh, dy);
    WeightRange(rs, sw, sh, dw, dh, dx, dy);
    hide A.First, A.WeightRow, Taps, RowWeight, Cnt;
    DotZero(Taps(sh, dh, dy), RowWeights(rs, sw, sh, dw, dh, dx, dy));
  }

  /** Each row is unweighed or has the same horizontal pass in both images. */
  lemma RowUnchangedOrUnweighed(a: Img, b: Img, rs: seq<Rect>, dw: int, dh: int, dx: int, dy: int, c: int, j: int)
    requires CanScale(a, dw, dh) && CanScale(b, dw, dh) && SameSize(a, b) && 0 <= dx < dw && 0 <= dy < dh
    requires RowsAgree(a, b, rs, dw, dh, dx, dy, c) && ColumnWeight(rs, a.w, a.h, dw, dh, dx, dy) == 0
    requires 0 <= j < Cnt(a.h, dh, dy)
    ensures |Taps(a.h, dh, dy)| == |Column(a, dw, dh, dx, dy, c)| == |Column(b, dw, dh, dx, dy, c)| == Cnt(a.h, dh, dy)
    ensures Taps(a.h, dh, dy)[j] == 0 || Column(a, dw, dh, dx, dy, c)[j] == Column(b, dw, dh, dx, dy, c)[j]
  {
    hide A.First, A.WeightRow, A.End, Taps, HPass, RowWeight, ColumnWeight, Column, Cnt, RowsAgree;
    NoColumnWeight(rs, a.w, a.h, dw, dh, dx, dy, j);
    ColumnAt(a, dw, dh, dx, dy, c, j);
    ColumnAt(b, dw, dh, dx, dy, c, j);
    if Taps(a.h, dh, dy)[j] != 0 {
      RowAgrees(a, b, rs, dw, dh, dx, dy, c, A.First(a.h, dh, dy) + j);
    }
  }

  lemma ColumnUnchanged(a: Img, b: Img, rs: seq<Rect>, dw: int, dh: int, dx: int, dy: int, c: int)
    requires CanScale(a, dw, dh) && CanScale(b, dw, dh) && SameSize(a, b) && 0 <= dx < dw && 0 <= dy < dh
    requires RowsAgree(a, b, rs, dw, dh, dx, dy, c) && ColumnWeight(rs, a.w, a.h, dw, dh, dx, dy) == 0
    ensures VPass(a, dw, dh, dx, dy, c) == VPass(b, dw, dh, dx, dy, c)
  {
    hide RowsAgree, ColumnWeight, HPass, A.First, A.WeightRow, Cnt, Taps, Column;
    TapWeights(a.h, dh, dy);
    var ws, us, vs := Taps(a.h, dh, dy), Column(a, dw, dh, dx, dy, c), Column(b, dw, dh, dx, dy, c);
    ColumnLength(a, dw, dh, dx, dy, c);
    ColumnLength(b, dw, dh, dx, dy, c);
    forall j | 0 <= j < |ws|
      ensures ws[j] == 0 || us[j] == vs[j]
    {
      RowUnchangedOrUnweighed(a, b, rs, dw, dh, dx, dy, c, j);
    }
    DotSame(ws, us, vs);
  }

  lemma ColumnLength(src: Img, dw: int, dh: int, dx: int, dy: int, c: int)
    requires CanScale(src, dw, dh) && 0 <= dx < dw && 0 <= dy < dh
    ensures |Column(src, dw, dh, dx, dy, c)| == Cnt(src.h, dh, dy)
  {
    TapFacts(src.h, dh, dy);
  }

  lemma RowAgrees(a: Img, b: Img, rs: seq<Rect>, dw: int, dh: int, dx: int, dy: int, c: int, sy: int)
    requires CanScale(a, dw, dh) && CanScale(b, dw, dh) && SameSize(a, b) && 0 <= dx < dw && 0 <= dy < dh
    requires RowsAgree(a, b, rs, dw, dh, dx, dy, c) && RowWeight(rs, a.w, dw, dx, sy) == 0
    requires A.First(a.h, dh, dy) <= sy < A.First(a.h, dh, dy) + Cnt(a.h, dh, dy)
    ensures 0 <= sy < a.h && HPass(a, dw, dx, sy, c) == HPass(b, dw, dx, sy, c)
  {
    TapFacts(a.h, dh, dy);
  }

  lemma ColumnAt(src: Img, dw: int, dh: int, dx: int, dy: int, c: int, j: int)
    requires CanScale(src, dw, dh) && 0 <= dx < dw && 0 <= dy < dh && 0 <= j < Cnt(src.h, dh, dy)
    ensures |Column(src, dw, dh, dx, dy, c)| == Cnt(src.h, dh, dy) && 0 <= A.First(src.h, dh, dy) + j < src.h
    ensures Column(src, dw, dh, dx, dy, c)[j] == HPass(src, dw, dx, A.First(src.h, dh, dy) + j, c)
  {
    TapFacts(src.h, dh, dy);
    hide HPass, A.First, Cnt;
  }

  lemma ChannelUnchanged(a: Img, b: Img, rs: seq<Rect>, dw: int, dh: int, dx: int, dy: int, c: int)
    requires CanScale(a, dw, dh) && CanScale(b, dw, dh) && SameSize(a, b) && 0 <= dx < dw && 0 <= dy < dh
    requires RowsAgree(a, b, rs, dw, dh, dx, dy, c) && WeightOf(rs, a.w, a.h, dw, dh, dx, dy) == 0
    ensures Channel(a, dw, dh, dx, dy, c) == Channel(b, dw, dh, dx, dy, c)
  {
    TapFacts(a.h, dh, dy);
    hide A.First, HPass, VPass, RowWeight, ColumnWeight, Cnt;
    if Cnt(a.h, dh, dy) != 1 {
      ColumnUnchanged(a, b, rs, dw, dh, dx, dy, c);
    }
  }

  /** A destination in which the rectangles weigh nothing does not see changes inside them. */
  lemma Unweighed(a: Img, b: Img, rs: seq<Rect>, dw: int, dh: int, dx: int, dy: int)
    requires CanScale(a, dw, dh) && CanScale(b, dw, dh) && SameSize(a, b) && 0 <= dx < dw && 0 <= dy < dh
    requires forall x, y :: A.First(a.w, dw, dx) <= x < A.End(a.w, dw, dx) && A.First(a.h, dh, dy) <= y < A.End(a.h, dh, dy)
                            ==> InSome(rs, x, y) || AgreeAt(a, b, x, y)
    requires WeightOf(rs, a.w, a.h, dw, dh, dx, dy) == 0
    ensures ScaledPixel(a, dw, dh, dx, dy) == ScaledPixel(b, dw, dh, dx, dy)
  {
    forall c
      ensures Channel(a, dw, dh, dx, dy, c) == Channel(b, dw, dh, dx, dy, c)
    {
      RowsDoAgree(a, b, rs, dw, dh, dx, dy, c);
      ChannelUnchanged(a, b, rs, dw, dh, dx, dy, c);
    }
    hide Channel;
  }

  lemma RowsDoAgree(a: Img, b: Img, rs: seq<Rect>, dw: int, dh: int, dx: int, dy: int, c: int)
    requires CanScale(a, dw, dh) && CanScale(b, dw, dh) && SameSize(a, b) && 0 <= dx < dw && 0 <= dy < dh
    requires forall x, y :: A.First(a.w, dw, dx) <= x < A.End(a.w, dw, dx) && A.First(a.h, dh, dy) <= y < A.End(a.h, dh, dy)
                            ==> InSome(rs, x, y) || AgreeAt(a, b, x, y)
    ensures RowsAgree(a, b, rs, dw, dh, dx, dy, c)
  {
    TapFacts(a.h, dh, dy);
    hide HPass, RowWeight, A.First, A.End;
    forall sy | A.First(a.h, dh, dy) <= sy < A.First(a.h, dh, dy) + Cnt(a.h, dh, dy) && RowWeight(rs, a.w, dw, dx, sy) == 0
      ensures HPass(a, dw, dx, sy, c) == HPass(b, dw, dx, sy, c)
    {
      RowUnchanged(a, b, rs, dw, dx, sy, c);
    }
  }

  // ---- enough weight, and a change shows ----

  const BLACK: Pixel := Pixel(0, 0, 0, 255)

  /** White, with the rectangles blackened. */
  ghost function Holed(rs: seq<Rect>, w: nat, h: nat): Img {
    Img(w, h, seq(h, y requires 0 <= y < h => seq(w, x requires 0 <= x < w => if InSome(rs, x, y) then BLACK else WHITE)))
  }

  ghost function White(w: nat, h: nat): Img {
    Holed([], w, h)
  }

  lemma HoledRow(rs: seq<Rect>, w: nat, h: nat, dw: int, dx: int, sy: int, c: int)
    requires w > 0 && h > 0 && 0 <= dx < dw && 0 <= sy < h && 0 <= c < 3 && CanScale(Holed(rs, w, h), dw, 1)
    ensures HPass(Holed(rs, w, h), dw, dx, sy, c) == 255 * A.Sum(Taps(w, dw, dx)) - 255 * RowWeight(rs, w, dw, dx, sy)
  {
    TapFacts(w, dw, dx);
    TapWeights(w, dw, dx);
    var src, f, n := Holed(rs, w, h), A.First(w, dw, dx), Cnt(w, dw, dx);
    hide A.First, A.WeightRow, Taps, Cnt;
    var vs := Cells(src, sy, f, n, c);
    forall k | 0 <= k < n
      ensures vs[k] == 255 - 255 * Bits(rs, f, sy, n)[k]
    {
      CellAt(src, sy, f, n, c, k);
    }
    DotAffine(Taps(w, dw, dx), vs, Bits(rs, f, sy, n), 255, 255);
  }

  lemma HoledColumn(rs: seq<Rect>, w: nat, h: nat, dw: int, dh: int, dx: int, dy: int, c: int)
    requires w > 0 && h > 0 && 0 <= dx < dw && 0 <= dy < dh && 0 <= c < 3 && CanScale(Holed(rs, w, h), dw, dh)
    ensures VPass(Holed(rs, w, h), dw, dh, dx, dy, c)
            == 255 * A.Sum(Taps(w, dw, dx)) * A.Sum(Taps(h, dh, dy)) - 255 * ColumnWeight(rs, w, h, dw, dh, dx, dy)
  {
    TapFacts(h, dh, dy);
    TapWeights(h, dh, dy);
    var src, f, n := Holed(rs, w, h), A.First(h, dh, dy), Cnt(h, dh, dy);
    hide A.First, A.WeightRow, Taps, Cnt, HPass, RowWeight, Holed;
    var vs, a := Column(src, dw, dh, dx, dy, c), 255 * A.Sum(Taps(w, dw, dx));
    forall j | 0 <= j < n
      ensures vs[j] == a - 255 * RowWeights(rs, w, h, dw, dh, dx, dy)[j]
    {
      ColumnAt(src, dw, dh, dx, dy, c, j);
      HoledRow(rs, w, h, dw, dx, f + j, c);
    }
    DotAffine(Taps(h, dh, dy), vs, RowWeights(rs, w, h, dw, dh, dx, dy), a, 255);
  }

  /** A change inside the rectangles can show: more than half a step of an output value where
      the whole weight is applied, more than a step where it is not. */
  ghost predicate Shows(rs: seq<Rect>, sw: nat, sh: nat, dw: nat, dh: nat, dx: int, dy: int)
    requires sw > 0 && sh > 0 && 0 <= dx < dw && 0 <= dy < dh
  {
    var t := WeightOf(rs, sw, sh, dw, dh, dx, dy);
    t > 257 || (t > 128 && FullPixel(sw, sh, dw, dh, dx, dy))
  }

  /** Rounding of a value v and of v less 255 * t. */
  lemma StepShows(v: int, t: int)
    requires t > 257 || (t > 128 && v == 255 * 65536)
    ensures (v + 32768) / 65536 != (v - 255 * t + 32768) / 65536
  {
  }

  lemma RowStepShows(a: int, r: int)
    requires 256 * r > 257 || (256 * r > 128 && a == 256)
    ensures (255 * a + 128) / 256 != (255 * a - 255 * r + 128) / 256
  {
  }

  /** Then blackening the rectangles of a white image changes the pixel. */
  lemma HolesShow(rs: seq<Rect>, w: nat, h: nat, dw: nat, dh: nat, dx: int, dy: int)
    requires w > 0 && h > 0 && 0 <= dx < dw && 0 <= dy < dh && Shows(rs, w, h, dw, dh, dx, dy)
    ensures CanScale(Holed(rs, w, h), dw, dh) && CanScale(White(w, h), dw, dh)
    ensures ScaledPixel(Holed(rs, w, h), dw, dh, dx, dy) != ScaledPixel(White(w, h), dw, dh, dx, dy)
  {
    HoledChannel(rs, w, h, dw, dh, dx, dy);
    hide Channel, Holed, Shows;
  }

  lemma HoledChannel(rs: seq<Rect>, w: nat, h: nat, dw: nat, dh: nat, dx: int, dy: int)
    requires w > 0 && h > 0 && 0 <= dx < dw && 0 <= dy < dh && Shows(rs, w, h, dw, dh, dx, dy)
    ensures CanScale(Holed(rs, w, h), dw, dh) && CanScale(White(w, h), dw, dh)
    ensures Channel(Holed(rs, w, h), dw, dh, dx, dy, 0) != Channel(White(w, h), dw, dh, dx, dy, 0)
  {
    TapFacts(h, dh, dy);
    TapWeights(w, dw, dx);
    TapWeights(h, dh, dy);
    var a, b, f := A.Sum(Taps(w, dw, dx)), A.Sum(Taps(h, dh, dy)), A.First(h, dh, dy);
    NoWeight(w, h, dw, dh, dx, dy);
    hide A.First, A.WeightRow, A.FullWeight, Taps, Cnt, HPass, VPass, RowWeight, ColumnWeight;
    if Cnt(h, dh, dy) == 1 {
      HoledRow(rs, w, h, dw, dx, f, 0);
      HoledRow([], w, h, dw, dx, f, 0);
      RowStepShows(a, RowWeight(rs, w, dw, dx, f));
    } else {
      HoledColumn(rs, w, h, dw, dh, dx, dy, 0);
      HoledColumn([], w, h, dw, dh, dx, dy, 0);
      FullProduct(a, b);
      StepShows(255 * a * b, ColumnWeight(rs, w, h, dw, dh, dx, dy));
    }
  }

  lemma FullProduct(a: int, b: int)
    ensures a == 256 && b == 256 ==> 255 * a * b == 255 * 65536
  {
  }

  lemma NoWeight(w: nat, h: nat, dw: nat, dh: nat, dx: int, dy: int)
    requires w > 0 && h > 0 && 0 <= dx < dw && 0 <= dy < dh
    ensures forall y :: RowWeight([], w, dw, dx, y) == 0
    ensures ColumnWeight([], w, h, dw, dh, dx, dy) == 0
  {
    TapWeights(w, dw, dx);
    TapWeights(h, dh, dy);
    hide A.First, A.WeightRow, Taps, Cnt;
    forall y
      ensures RowWeight([], w, dw, dx, y) == 0
    {
      DotConstant(Taps(w, dw, dx), Bits([], A.First(w, dw, dx), y, Cnt(w, dw, dx)), 0);
    }
    hide RowWeight;
    DotConstant(Taps(h, dh, dy), RowWeights([], w, h, dw, dh, dx, dy), 0);
  }

  /** A destination that reads nothing else, with its whole weight, shows it. */
  lemma WhollyShows(rs: seq<Rect>, w: nat, h: nat, dw: nat, dh: nat, dx: int, dy: int)
    requires w > 0 && h > 0 && 0 <= dx < dw && 0 <= dy < dh && FullPixel(w, h, dw, dh, dx, dy)
    requires forall x, y :: A.First(w, dw, dx) <= x < A.End(w, dw, dx) && A.First(h, dh, dy) <= y < A.End(h, dh, dy) ==> InSome(rs, x, y)
    ensures WeightOf(rs, w, h, dw, dh, dx, dy) == 65536 && Shows(rs, w, h, dw, dh, dx, dy)
  {
    TapFacts(w, dw, dx);
    TapFacts(h, dh, dy);
    TapWeights(w, dw, dx);
    TapWeights(h, dh, dy);
    var f, n := A.First(h, dh, dy), Cnt(h, dh, dy);
    forall y | f <= y < f + n
      ensures RowWeight(rs, w, dw, dx, y) == 256
    {
      DotConstant(Taps(w, dw, dx), Bits(rs, A.First(w, dw, dx), y, Cnt(w, dw, dx)), 1);
    }
    hide A.First, A.WeightRow, A.End, A.FullWeight, Taps, RowWeight;
    if n != 1 {
      DotConstant(Taps(h, dh, dy), RowWeights(rs, w, h, dw, dh, dx, dy), 256);
    }
  }

  // ---- scales on which every weight shows ----

  /** Weights of at least m: the sum is 0, or at least m times the least value that is not 0. */
  lemma {:induction false} DotStepped(ws: seq<int>, bs: seq<int>, m: nat, b: nat)
    requires |ws| == |bs| && forall k :: 0 <= k < |ws| ==> ws[k] >= m && (bs[k] == 0 || bs[k] >= b)
    ensures Dot(ws, bs) == 0 || Dot(ws, bs) >= m * b
    ensures Dot(ws, bs) >= 0
  {
    if ws != [] {
      var n := |ws| - 1;
      DotStepped(ws[..n], bs[..n], m, b);
      StepUp(ws[n], bs[n], m, b);
    }
  }

  lemma StepUp(w: int, v: int, m: nat, b: nat)
    requires w >= m && (v == 0 || v >= b)
    ensures v * w == 0 || v * w >= m * b
    ensures v * w >= 0
  {
    if v != 0 {
      MulMono(m, w, v);
      MulMono(b, v, m);
    }
  }

  /** Every applied weight of destination i is at least m. */
  ghost predicate TapsFrom(s: int, d: int, i: int, m: nat)
    requires s > 0 && d > 0 && 0 <= i < d
  {
    forall k :: 0 <= k < |Taps(s, d, i)| ==> Taps(s, d, i)[k] >= m
  }

  lemma HeavyTapsShow(rs: seq<Rect>, w: nat, h: nat, dw: nat, dh: nat, dx: int, dy: int, mx: nat, my: nat)
    requires w > 0 && h > 0 && 0 <= dx < dw && 0 <= dy < dh && FullPixel(w, h, dw, dh, dx, dy)
    requires TapsFrom(w, dw, dx, mx) && TapsFrom(h, dh, dy, my) && mx > 0 && mx * my > 128
    ensures WeightOf(rs, w, h, dw, dh, dx, dy) > 0 ==> Shows(rs, w, h, dw, dh, dx, dy)
  {
    TapWeights(w, dw, dx);
    TapWeights(h, dh, dy);
    hide A.First, A.WeightRow, Taps, Cnt;
    forall y
      ensures RowWeight(rs, w, dw, dx, y) == 0 || RowWeight(rs, w, dw, dx, y) >= mx
    {
      DotStepped(Taps(w, dw, dx), Bits(rs, A.First(w, dw, dx), y, Cnt(w, dw, dx)), mx, 1);
    }
    hide RowWeight, FullPixel;
    DotStepped(Taps(h, dh, dy), RowWeights(rs, w, h, dw, dh, dx, dy), my, mx);
    WeightRange(rs, w, h, dw, dh, dx, dy);
  }

  lemma OverlapStep(g: int, p: int, q: int, i: int, j: int)
    requires g > 0 && A.Overlap(g * p, g * q, i, j) > 0
    ensures A.Overlap(g * p, g * q, i, j) >= g
  {
    var o := Min(i * p + p, j * q + q) - Max(i * p, j * q);
    Scaled(g, i, p);
    Scaled(g, j, q);
    MulOrder(g, i * p + p, j * q + q);
    MulOrder(g, i * p, j * q);
    assert A.Overlap(g * p, g * q, i, j) == g * o;
    NonNegativeProduct(g, if o > 0 then o else 0);
    if o <= 0 {
      MulMono(o, 0, g);
    } else {
      MulMono(1, o, g);
    }
  }

  lemma Scaled(g: int, i: int, p: int)
    ensures i * (g * p) == g * (i * p) && i * (g * p) + g * p == g * (i * p + p)
  {
  }

  lemma MulOrder(g: int, a: int, b: int)
    requires g > 0
    ensures Min(g * a, g * b) == g * Min(a, b) && Max(g * a, g * b) == g * Max(a, b)
  {
    MulMono(a, b, g);
    MulMono(b, a, g);
  }

  /** Sizes in the ratio p : q: every weight is at least 256 / p. */
  lemma RatioTaps(g: int, p: int, q: int, i: int)
    requires g > 0 && p > 0 && q > 0 && 0 <= i < g * q
    ensures g * p > 0 && g * q > 0 && TapsFrom(g * p, g * q, i, 256 / p)
  {
    NonNegativeProduct(g, p);
    NonNegativeProduct(g, q);
    var s, d := g * p, g * q;
    TapFacts(s, d, i);
    TapWeights(s, d, i);
    A.RawSumAtMost256(s, d, i);
    forall k | 0 <= k < |Taps(s, d, i)|
      ensures Taps(s, d, i)[k] >= 256 / p
    {
      A.CellsAreOverlaps(s, d, i, A.First(s, d, i) + k);
      OverlapStep(g, p, q, i, A.First(s, d, i) + k);
      var o := A.Overlap(s, d, i, A.First(s, d, i) + k);
      RatioBound(g, p, o);
      WeightAtLeastRaw(s, d, i, k);
      RawOf(s, d, i, k);
      A.DivAtLeast(o * 256, s, 256 / p);
    }
  }

  lemma RatioBound(g: int, p: int, o: int)
    requires g > 0 && p > 0 && o >= g
    ensures (256 / p) * (g * p) <= o * 256
  {
    A.DivFloor(256, p);
    MulMono((256 / p) * p, 256, g);
    assert (256 / p) * (g * p) == ((256 / p) * p) * g;
  }

  lemma RawOf(s: int, d: int, i: int, k: int)
    requires s > 0 && d > 0
    ensures A.Raw(s, d, i, k) == A.Overlap(s, d, i, A.First(s, d, i) + k) * 256 / s
  {
  }

  lemma WeightAtLeastRaw(s: int, d: int, i: int, k: int)
    requires s > 0 && d > 0 && 0 <= i < d && 0 <= k < |Taps(s, d, i)|
    ensures k < A.Span(s, d, i) && Taps(s, d, i)[k] >= A.Raw(s, d, i, k)
  {
    TapFacts(s, d, i);
    TapWeights(s, d, i);
    A.RawSumAtMost256(s, d, i);
    hide A.Raw, A.RawSum, A.Big;
  }

  /** Sizes in the ratios px : qx and py : qy, tap counts within 8 bits: every weight shows
      as soon as floor(256 / px) * floor(256 / py) exceeds 128. */
  lemma RatioShows(rs: seq<Rect>, gx: nat, px: nat, qx: nat, gy: nat, py: nat, qy: nat, dx: int, dy: int)
    requires gx > 0 && px > 0 && qx > 0 && gy > 0 && py > 0 && qy > 0 && 0 <= dx < gx * qx && 0 <= dy < gy * qy
    requires (256 / px) * (256 / py) > 128
    requires gx * px > 0 && gy * py > 0 && A.TapsOf(gx * px, gx * qx) <= 255 && A.TapsOf(gy * py, gy * qy) <= 255
    ensures WeightOf(rs, gx * px, gy * py, gx * qx, gy * qy, dx, dy) > 0 ==> Shows(rs, gx * px, gy * py, gx * qx, gy * qy, dx, dy)
  {
    RatioTaps(gx, px, qx, dx);
    RatioTaps(gy, py, qy, dy);
    A.SpanBounds(gx * px, gx * qx, dx);
    A.SpanBounds(gy * py, gy * qy, dy);
    NonNegativeProduct(256 / px, 256 / py);
    hide TapsFrom, WeightOf, Shows;
    var w, h, dw, dh := gx * px, gy * py, gx * qx, gy * qy;
    HeavyTapsShow(rs, w, h, dw, dh, dx, dy, 256 / px, 256 / py);
  }
}
