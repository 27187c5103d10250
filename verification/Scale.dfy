/** The box filter: what one destination pixel is, the banded two-pass loop with its ring
    of cached rows, and the incremental scaler that recomputes only dirty regions. */
module Scale {
  import opened Raster
  import A = Axis

  const DEFAULT_MAX_WIDTH: int := 1600

  type u32 = x: int | 0 <= x < 0x1_0000_0000

  datatype Sum3 = Sum3(r: u32, g: u32, b: u32)

  function Ch(p: Pixel, c: int): (v: int)
    ensures 0 <= v <= 255
  {
    if c == 0 then p.r else if c == 1 then p.g else p.b
  }

  // ---- one pixel, without caches ----

  ghost function Dot(ws: seq<int>, vs: seq<int>): int
    requires |ws| == |vs|
  {
    if ws == [] then 0 else Dot(ws[..|ws| - 1], vs[..|vs| - 1]) + vs[|vs| - 1] * ws[|ws| - 1]
  }

  /** Taps that are applied: the 8-bit count. */
  function Cnt(s: int, d: int, i: int): int
    requires d > 0
  {
    A.Span(s, d, i) % 256
  }

  ghost function Taps(s: int, d: int, i: int): seq<int>
    requires s > 0 && d > 0 && 0 <= i < d
  {
    TapFacts(s, d, i);
    A.WeightRow(s, d, i)[..Cnt(s, d, i)]
  }

  lemma TapFacts(s: int, d: int, i: int)
    requires s > 0 && d > 0 && 0 <= i < d
    ensures 0 <= Cnt(s, d, i) <= A.Span(s, d, i) <= |A.WeightRow(s, d, i)| == A.TapsOf(s, d)
    ensures 0 <= A.First(s, d, i) && A.First(s, d, i) + A.Span(s, d, i) <= s
  {
    A.SpanBounds(s, d, i);
  }

  lemma TapWeights(s: int, d: int, i: int)
    requires s > 0 && d > 0 && 0 <= i < d
    ensures |Taps(s, d, i)| == Cnt(s, d, i)
    ensures forall k :: 0 <= k < |Taps(s, d, i)| ==> 0 <= Taps(s, d, i)[k]
    ensures 0 <= A.Sum(Taps(s, d, i)) <= 256
    ensures A.Sum(Taps(s, d, i)) == 256 <==> A.FullWeight(s, d, i)
  {
    TapFacts(s, d, i);
    A.WeightsSumTo256(s, d, i);
    A.AppliedWeight(s, d, i);
    var row := A.WeightRow(s, d, i)[..A.Span(s, d, i)];
    assert Taps(s, d, i) == row[..Cnt(s, d, i)];
    A.SumPrefix(row, Cnt(s, d, i));
  }

  /** Channel c of n consecutive cells of row sy. */
  function Cells(src: Img, sy: int, s0: int, n: int, c: int): (vs: seq<int>)
    requires src.Valid() && 0 <= sy < src.h && 0 <= n && 0 <= s0 && s0 + n <= src.w
    ensures |vs| == n && forall k :: 0 <= k < n ==> 0 <= vs[k] <= 255
  {
    var vs := seq(n, k requires 0 <= k < n => Ch(src.At(s0 + k, sy), c));
    assert forall k :: 0 <= k < n ==> vs[k] == Ch(src.At(s0 + k, sy), c);
    vs
  }

  ghost predicate CanScale(src: Img, dw: int, dh: int) {
    src.Valid() && src.w > 0 && src.h > 0 && dw > 0 && dh > 0
  }

  /** Horizontal pass of source row sy for destination column dx. */
  ghost function HPass(src: Img, dw: int, dx: int, sy: int, c: int): int
    requires CanScale(src, dw, 1) && 0 <= dx < dw && 0 <= sy < src.h
  {
    TapFacts(src.w, dw, dx);
    Dot(Taps(src.w, dw, dx), Cells(src, sy, A.First(src.w, dw, dx), Cnt(src.w, dw, dx), c))
  }

  ghost function Column(src: Img, dw: int, dh: int, dx: int, dy: int, c: int): seq<int>
    requires CanScale(src, dw, dh) && 0 <= dx < dw && 0 <= dy < dh
  {
    TapFacts(src.h, dh, dy);
    seq(Cnt(src.h, dh, dy), k requires 0 <= k < Cnt(src.h, dh, dy) => HPass(src, dw, dx, A.First(src.h, dh, dy) + k, c))
  }

  /** Both passes. */
  ghost function VPass(src: Img, dw: int, dh: int, dx: int, dy: int, c: int): int
    requires CanScale(src, dw, dh) && 0 <= dx < dw && 0 <= dy < dh
  {
    TapFacts(src.h, dh, dy);
    Dot(Taps(src.h, dh, dy), Column(src, dw, dh, dx, dy, c))
  }

  /** Rounded output; a single row skips the vertical weight. */
  ghost function Channel(src: Img, dw: int, dh: int, dx: int, dy: int, c: int): int
    requires CanScale(src, dw, dh) && 0 <= dx < dw && 0 <= dy < dh
  {
    TapFacts(src.h, dh, dy);
    if Cnt(src.h, dh, dy) == 1 then (HPass(src, dw, dx, A.First(src.h, dh, dy), c) + 128) / 256
    else (VPass(src, dw, dh, dx, dy, c) + 32768) / 65536
  }

  ghost function ScaledPixel(src: Img, dw: int, dh: int, dx: int, dy: int): Pixel
    requires CanScale(src, dw, dh) && 0 <= dx < dw && 0 <= dy < dh
  {
    ChannelIsByte(src, dw, dh, dx, dy, 0);
    ChannelIsByte(src, dw, dh, dx, dy, 1);
    ChannelIsByte(src, dw, dh, dx, dy, 2);
    Pixel(Channel(src, dw, dh, dx, dy, 0), Channel(src, dw, dh, dx, dy, 1), Channel(src, dw, dh, dx, dy, 2), 255)
  }

  /** A fresh scale of the whole image. */
  ghost function ScaledImg(src: Img, dw: nat, dh: nat): Img
    requires CanScale(src, dw, dh)
  {
    Img(dw, dh, seq(dh, y requires 0 <= y < dh => seq(dw, x requires 0 <= x < dw => ScaledPixel(src, dw, dh, x, y))))
  }

  // ---- bounds ----

  lemma {:induction false} DotBounds(ws: seq<int>, vs: seq<int>, lo: int, hi: int)
    requires |ws| == |vs|
    requires forall k :: 0 <= k < |ws| ==> 0 <= ws[k] && lo <= vs[k] <= hi
    ensures lo * A.Sum(ws) <= Dot(ws, vs) <= hi * A.Sum(ws)
  {
    if ws != [] {
      var n := |ws| - 1;
      DotBounds(ws[..n], vs[..n], lo, hi);
      var w, v := ws[n], vs[n];
      MulBounds(lo, v, hi, w);
      A.Distribute(A.Sum(ws[..n]), w, lo);
      A.Distribute(A.Sum(ws[..n]), w, hi);
    }
  }

  lemma MulBounds(lo: int, v: int, hi: int, w: int)
    requires lo <= v <= hi && 0 <= w
    ensures lo * w <= v * w <= hi * w
  {
  }

  /** Weights that sum to at most 256, or to exactly 256. */
  lemma TapBounds(ws: seq<int>, vs: seq<int>, lo: int, hi: int)
    requires |ws| == |vs| && 0 <= lo <= hi && 0 <= A.Sum(ws) <= 256
    requires forall k :: 0 <= k < |ws| ==> 0 <= ws[k] && lo <= vs[k] <= hi
    ensures 0 <= Dot(ws, vs) <= 256 * hi
    ensures A.Sum(ws) == 256 ==> 256 * lo <= Dot(ws, vs)
  {
    DotBounds(ws, vs, lo, hi);
    MulBounds(0, A.Sum(ws), 256, lo);
    MulBounds(0, A.Sum(ws), 256, hi);
  }

  /** The horizontal pass stays between 256 times the extreme cells, and below 2^16. */
  lemma HBounds(src: Img, dw: int, dx: int, sy: int, c: int, lo: int, hi: int)
    requires CanScale(src, dw, 1) && 0 <= dx < dw && 0 <= sy < src.h
    requires forall x :: A.First(src.w, dw, dx) <= x < A.End(src.w, dw, dx) && 0 <= x < src.w ==> lo <= Ch(src.At(x, sy), c) <= hi
    requires 0 <= lo <= hi
    ensures 0 <= HPass(src, dw, dx, sy, c) <= 256 * hi
    ensures A.FullWeight(src.w, dw, dx) ==> 256 * lo <= HPass(src, dw, dx, sy, c)
  {
    hide A.First, A.End, A.TapsOf, A.WeightRow, Taps;
    TapFacts(src.w, dw, dx);
    TapWeights(src.w, dw, dx);
    TapBounds(Taps(src.w, dw, dx), Cells(src, sy, A.First(src.w, dw, dx), Cnt(src.w, dw, dx), c), lo, hi);
  }

  lemma VBounds(src: Img, dw: int, dh: int, dx: int, dy: int, c: int, lo: int, hi: int)
    requires CanScale(src, dw, dh) && 0 <= dx < dw && 0 <= dy < dh && 0 <= lo <= hi
    requires forall k :: 0 <= k < |Column(src, dw, dh, dx, dy, c)| ==> lo <= Column(src, dw, dh, dx, dy, c)[k] <= hi
    ensures 0 <= VPass(src, dw, dh, dx, dy, c) <= 256 * hi
    ensures A.FullWeight(src.h, dh, dy) ==> 256 * lo <= VPass(src, dw, dh, dx, dy, c)
  {
    hide A.First, A.End, A.TapsOf, A.WeightRow, Taps, HPass;
    TapFacts(src.h, dh, dy);
    TapWeights(src.h, dh, dy);
    TapBounds(Taps(src.h, dh, dy), Column(src, dw, dh, dx, dy, c), lo, hi);
  }

  /** Every output channel fits in a byte, for any sizes. */
  lemma ChannelIsByte(src: Img, dw: int, dh: int, dx: int, dy: int, c: int)
    requires CanScale(src, dw, dh) && 0 <= dx < dw && 0 <= dy < dh
    ensures 0 <= Channel(src, dw, dh, dx, dy, c) < 256
  {
    hide A.First, A.End, A.TapsOf, A.WeightRow, Taps, HPass, VPass;
    TapFacts(src.h, dh, dy);
    forall sy | 0 <= sy < src.h
      ensures 0 <= HPass(src, dw, dx, sy, c) <= 65280
    {
      HBounds(src, dw, dx, sy, c, 0, 255);
    }
    VBounds(src, dw, dh, dx, dy, c, 0, 65280);
  }

  /** The whole weight of the pixel's columns is applied, and of its rows unless a single
      row is copied without weighting it. */
  predicate FullPixel(sw: int, sh: int, dw: int, dh: int, dx: int, dy: int)
    requires dw > 0 && dh > 0
  {
    A.FullWeight(sw, dw, dx) && (A.FullWeight(sh, dh, dy) || Cnt(sh, dh, dy) == 1)
  }

  /** Then a channel lies between the extremes of its footprint. */
  lemma ChannelWithinFootprint(src: Img, dw: int, dh: int, dx: int, dy: int, c: int, lo: int, hi: int)
    requires CanScale(src, dw, dh) && 0 <= dx < dw && 0 <= dy < dh && 0 <= lo <= hi
    requires FullPixel(src.w, src.h, dw, dh, dx, dy)
    requires forall x, y :: 0 <= x < src.w && 0 <= y < src.h
                            && A.First(src.w, dw, dx) <= x < A.End(src.w, dw, dx) && A.First(src.h, dh, dy) <= y < A.End(src.h, dh, dy)
                            ==> lo <= Ch(src.At(x, y), c) <= hi
    ensures lo <= Channel(src, dw, dh, dx, dy, c) <= hi
  {
    hide A.First, A.End, A.TapsOf, A.WeightRow, A.FullWeight, Taps, HPass, VPass;
    TapFacts(src.h, dh, dy);
    forall sy | A.First(src.h, dh, dy) <= sy < A.End(src.h, dh, dy)
      ensures 256 * lo <= HPass(src, dw, dx, sy, c) <= 256 * hi
    {
      HBounds(src, dw, dx, sy, c, lo, hi);
    }
    VBounds(src, dw, dh, dx, dy, c, 256 * lo, 256 * hi);
  }

  /** Every pixel has the value p. */
  ghost predicate Plain(src: Img, p: Pixel) {
    src.Valid() && forall x, y :: 0 <= x < src.w && 0 <= y < src.h ==> src.At(x, y) == p
  }

  /** Weighted sums of a constant. */
  lemma DotConstant(ws: seq<int>, vs: seq<int>, v: int)
    requires |ws| == |vs| && forall k :: 0 <= k < |ws| ==> 0 <= ws[k] && vs[k] == v
    ensures Dot(ws, vs) == v * A.Sum(ws)
  {
    DotBounds(ws, vs, v, v);
  }

  lemma PlainRow(src: Img, p: Pixel, dw: int, dx: int, sy: int, c: int)
    requires Plain(src, p) && CanScale(src, dw, 1) && 0 <= dx < dw && 0 <= sy < src.h
    ensures HPass(src, dw, dx, sy, c) == Ch(p, c) * A.Sum(Taps(src.w, dw, dx))
  {
    hide A.First, A.WeightRow, Taps, Ch;
    TapFacts(src.w, dw, dx);
    TapWeights(src.w, dw, dx);
    var vs := Cells(src, sy, A.First(src.w, dw, dx), Cnt(src.w, dw, dx), c);
    forall k | 0 <= k < |vs|
      ensures vs[k] == Ch(p, c)
    {
      CellAt(src, sy, A.First(src.w, dw, dx), Cnt(src.w, dw, dx), c, k);
    }
    DotConstant(Taps(src.w, dw, dx), vs, Ch(p, c));
  }

  lemma CellAt(src: Img, sy: int, s0: int, n: int, c: int, k: int)
    requires src.Valid() && 0 <= sy < src.h && 0 <= k < n && 0 <= s0 && s0 + n <= src.w
    ensures Cells(src, sy, s0, n, c)[k] == Ch(src.At(s0 + k, sy), c)
  {
  }

  lemma PlainPixel(src: Img, p: Pixel, dw: int, dh: int, dx: int, dy: int, c: int)
    requires Plain(src, p) && CanScale(src, dw, dh) && 0 <= dx < dw && 0 <= dy < dh
    ensures VPass(src, dw, dh, dx, dy, c) == Ch(p, c) * A.Sum(Taps(src.w, dw, dx)) * A.Sum(Taps(src.h, dh, dy))
  {
    hide A.First, A.WeightRow, Taps, Ch, HPass;
    TapFacts(src.h, dh, dy);
    TapWeights(src.h, dh, dy);
    var vs := Column(src, dw, dh, dx, dy, c);
    forall k | 0 <= k < |vs|
      ensures vs[k] == Ch(p, c) * A.Sum(Taps(src.w, dw, dx))
    {
      PlainRow(src, p, dw, dx, A.First(src.h, dh, dy) + k, c);
    }
    DotConstant(Taps(src.h, dh, dy), vs, Ch(p, c) * A.Sum(Taps(src.w, dw, dx)));
  }

  const WHITE: Pixel := Pixel(255, 255, 255, 255)

  /** White stays white in exactly those pixels: elsewhere the bound fails. */
  lemma WhiteStaysWhite(src: Img, dw: int, dh: int, dx: int, dy: int, c: int)
    requires Plain(src, WHITE) && CanScale(src, dw, dh) && 0 <= dx < dw && 0 <= dy < dh
    ensures Channel(src, dw, dh, dx, dy, c) == 255 <==> FullPixel(src.w, src.h, dw, dh, dx, dy)
  {
    assert Ch(WHITE, c) == 255;
    hide A.First, A.WeightRow, A.FullWeight, Taps, Cnt, HPass, VPass, Plain, Ch;
    TapFacts(src.h, dh, dy);
    TapWeights(src.w, dw, dx);
    TapWeights(src.h, dh, dy);
    var a, b := A.Sum(Taps(src.w, dw, dx)), A.Sum(Taps(src.h, dh, dy));
    PlainPixel(src, WHITE, dw, dh, dx, dy, c);
    WhiteRounding(a, b, VPass(src, dw, dh, dx, dy, c));
    if Cnt(src.h, dh, dy) == 1 {
      PlainRow(src, WHITE, dw, dx, A.First(src.h, dh, dy), c);
      WhiteRow(a, HPass(src, dw, dx, A.First(src.h, dh, dy), c));
    }
  }

  lemma WhiteRow(a: int, h: int)
    requires 0 <= a <= 256 && h == 255 * a
    ensures (h + 128) / 256 == 255 <==> a == 256
  {
  }

  lemma WhiteRounding(a: int, b: int, v: int)
    requires 0 <= a <= 256 && 0 <= b <= 256 && v == 255 * a * b
    ensures (v + 32768) / 65536 == 255 <==> a == 256 && b == 256
  {
    if a < 256 {
      MulBounds(0, a, 255, b);
    }
    MulBounds(0, a, 256, b);
  }

  /** Where the stored column count is 0 every image comes out black. */
  lemma NoColumnsIsBlack(src: Img, dw: int, dh: int, dx: int, dy: int, c: int)
    requires CanScale(src, dw, dh) && 0 <= dx < dw && 0 <= dy < dh && Cnt(src.w, dw, dx) == 0
    ensures Channel(src, dw, dh, dx, dy, c) == 0
  {
    hide A.First, A.WeightRow, Taps, Ch;
    TapFacts(src.w, dw, dx);
    TapFacts(src.h, dh, dy);
    TapWeights(src.w, dw, dx);
    TapWeights(src.h, dh, dy);
    forall sy | 0 <= sy < src.h
      ensures HPass(src, dw, dx, sy, c) == 0
    {
    }
    hide HPass;
    DotConstant(Taps(src.h, dh, dy), Column(src, dw, dh, dx, dy, c), 0);
  }

  /** A white image of 256 (or 512, ...) columns scaled to one column comes out black. */
  lemma WhiteComesOutBlack(src: Img, dh: int, dy: int, c: int)
    requires Plain(src, WHITE) && CanScale(src, 1, dh) && src.w % 256 == 0 && 0 <= dy < dh
    ensures Channel(src, 1, dh, 0, dy, c) == 0
  {
    hide A.WeightRow, A.AxisOf, Channel;
    A.EightBitCountLosesTheSpan(src.w);
    NoColumnsIsBlack(src, 1, dh, 0, dy, c);
  }

  lemma OneTap(ws: seq<int>, vs: seq<int>)
    requires |ws| == |vs| == 1
    ensures A.Sum(ws) == ws[0] && Dot(ws, vs) == vs[0] * ws[0]
  {
  }

  /** The single-row shortcut is the general formula when its one weight is 256. */
  lemma ShortcutIsGeneral(src: Img, dw: int, dh: int, dx: int, dy: int, c: int)
    requires CanScale(src, dw, dh) && 0 <= dx < dw && 0 <= dy < dh && (Cnt(src.h, dh, dy) == 1 ==> A.FullWeight(src.h, dh, dy))
    ensures Channel(src, dw, dh, dx, dy, c) == (VPass(src, dw, dh, dx, dy, c) + 32768) / 65536
  {
    TapFacts(src.h, dh, dy);
    if Cnt(src.h, dh, dy) == 1 {
      TapWeights(src.h, dh, dy);
      OneTap(Taps(src.h, dh, dy), Column(src, dw, dh, dx, dy, c));
    }
  }

  /** And only then: otherwise a white image tells them apart, as long as its columns are
      wholly weighted. */
  lemma ShortcutShows(src: Img, dw: int, dh: int, dx: int, dy: int, c: int)
    requires Plain(src, WHITE) && CanScale(src, dw, dh) && 0 <= dx < dw && 0 <= dy < dh
    requires A.FullWeight(src.w, dw, dx)
    ensures Channel(src, dw, dh, dx, dy, c) == (VPass(src, dw, dh, dx, dy, c) + 32768) / 65536
            <==> (Cnt(src.h, dh, dy) == 1 ==> A.FullWeight(src.h, dh, dy))
  {
    assert Ch(WHITE, c) == 255;
    hide A.First, A.WeightRow, A.FullWeight, Taps, HPass, VPass, Plain, Ch;
    WhiteStaysWhite(src, dw, dh, dx, dy, c);
    TapWeights(src.w, dw, dx);
    TapWeights(src.h, dh, dy);
    PlainPixel(src, WHITE, dw, dh, dx, dy, c);
    WhiteRounding(A.Sum(Taps(src.w, dw, dx)), A.Sum(Taps(src.h, dh, dy)), VPass(src, dw, dh, dx, dy, c));
  }

  // ---- locality ----

  /** Outside the changed footprint, the scaled pixel is unchanged. */
  lemma ScaledPixelLocal(a: Img, b: Img, dw: int, dh: int, dx: int, dy: int)
    requires CanScale(a, dw, dh) && CanScale(b, dw, dh) && SameSize(a, b) && 0 <= dx < dw && 0 <= dy < dh
    requires forall x, y :: A.First(a.w, dw, dx) <= x < A.End(a.w, dw, dx) && A.First(a.h, dh, dy) <= y < A.End(a.h, dh, dy)
                            ==> AgreeAt(a, b, x, y)
    ensures ScaledPixel(a, dw, dh, dx, dy) == ScaledPixel(b, dw, dh, dx, dy)
  {
    TapFacts(a.w, dw, dx);
    TapFacts(a.h, dh, dy);
    forall sy, c | A.First(a.h, dh, dy) <= sy < A.End(a.h, dh, dy)
      ensures HPass(a, dw, dx, sy, c) == HPass(b, dw, dx, sy, c)
    {
      forall x | A.First(a.w, dw, dx) <= x < A.End(a.w, dw, dx)
        ensures a.At(x, sy) == b.At(x, sy)
      {
        assert AgreeAt(a, b, x, sy);
      }
      assert Cells(a, sy, A.First(a.w, dw, dx), Cnt(a.w, dw, dx), c) == Cells(b, sy, A.First(a.w, dw, dx), Cnt(a.w, dw, dx), c);
    }
    forall c
      ensures Channel(a, dw, dh, dx, dy, c) == Channel(b, dw, dh, dx, dy, c)
    {
      if Cnt(a.h, dh, dy) != 1 {
        assert Column(a, dw, dh, dx, dy, c) == Column(b, dw, dh, dx, dy, c);
      }
    }
  }
}
