/** The banded scaling loop: a ring of cached horizontal passes, written in place. */
module ScaleBand {
  import opened Geometry
  import opened Raster
  import opened Scale
  import A = Axis

  /** What a ring slot must hold for source row sy and the column offset o of the band. */
  ghost predicate IsHRow(src: Img, dw: int, dx: int, sy: int, s: Sum3)
    requires CanScale(src, dw, 1) && 0 <= dx < dw && 0 <= sy < src.h
  {
    s.r == HPass(src, dw, dx, sy, 0) && s.g == HPass(src, dw, dx, sy, 1) && s.b == HPass(src, dw, dx, sy, 2)
  }

  /** A valid tag always means: that slot holds that row's horizontal pass. */
  ghost predicate RingOK(src: Img, dw: int, dr: Rect, buf: array2<Sum3>, tag: array<int>)
    reads buf, tag
  {
    && CanScale(src, dw, 1) && 0 <= dr.x0 <= dr.x1 <= dw
    && buf.Length0 == tag.Length && buf.Length1 == dr.Dx() && tag.Length > 0
    && forall s :: 0 <= s < tag.Length && tag[s] != -1 ==>
                     0 <= tag[s] < src.h && tag[s] % tag.Length == s
                     && forall o :: 0 <= o < dr.Dx() ==> IsHRow(src, dw, dr.x0 + o, tag[s], buf[s, o])
  }

  ghost predicate GoodTaps(ws: seq<int>) {
    A.Sum(ws) <= 256 && forall i :: 0 <= i < |ws| ==> 0 <= ws[i]
  }

  /** Weighted sum of consecutive cells of one source row. */
  method DotCells(src: Img, sy: int, s0: int, ws: seq<int>) returns (s: Sum3)
    requires src.Valid() && 0 <= sy < src.h && 0 <= s0 && s0 + |ws| <= src.w && GoodTaps(ws)
    ensures s.r == Dot(ws, Cells(src, sy, s0, |ws|, 0))
    ensures s.g == Dot(ws, Cells(src, sy, s0, |ws|, 1))
    ensures s.b == Dot(ws, Cells(src, sy, s0, |ws|, 2))
  {
    var n := |ws|;
    ghost var cr, cg, cb := Cells(src, sy, s0, n, 0), Cells(src, sy, s0, n, 1), Cells(src, sy, s0, n, 2);
    s := Sum3(0, 0, 0);
    var k := 0;
    while k < n
      invariant 0 <= k <= n
      invariant SumsTo(ws, cr, cg, cb, k, s)
    {
      var p := src.px[sy][s0 + k];
      s := AddTap(s, p.r, p.g, p.b, ws[k], ws, cr, cg, cb, k, 255);
      k := k + 1;
    }
    assert ws[..n] == ws && cr[..n] == cr && cg[..n] == cg && cb[..n] == cb;
  }

  /** Horizontal pass of one destination column over one source row. */
  method SumCells(src: Img, ax: A.ScaleAxis, dx: int, sy: int) returns (s: Sum3)
    requires CanScale(src, ax.dstN, 1) && ax == A.AxisOf(src.w, ax.dstN) && 0 <= dx < ax.dstN && 0 <= sy < src.h
    ensures IsHRow(src, ax.dstN, dx, sy, s)
  {
    TapFacts(src.w, ax.dstN, dx);
    TapWeights(src.w, ax.dstN, dx);
    s := DotCells(src, sy, ax.start[dx], ax.w[dx][..ax.cnt[dx]]);
  }

  /** Weighted sum of the cached rows, all at column offset o. */
  method DotRows(buf: array2<Sum3>, o: int, rows: seq<int>, ws: seq<int>, ghost cr: seq<int>, ghost cg: seq<int>, ghost cb: seq<int>) returns (s: Sum3)
    requires |rows| == |ws| == |cr| == |cg| == |cb| && GoodTaps(ws) && 0 <= o < buf.Length1
    requires forall k :: 0 <= k < |rows| ==> 0 <= cr[k] <= 65280 && 0 <= cg[k] <= 65280 && 0 <= cb[k] <= 65280
    requires forall k :: 0 <= k < |rows| ==> 0 <= rows[k] < buf.Length0 && var h := buf[rows[k], o]; h.r == cr[k] && h.g == cg[k] && h.b == cb[k]
    ensures s.r == Dot(ws, cr) && s.g == Dot(ws, cg) && s.b == Dot(ws, cb)
    ensures s.r <= 65280 * 256 && s.g <= 65280 * 256 && s.b <= 65280 * 256
  {
    s := Sum3(0, 0, 0);
    var k := 0;
    while k < |rows|
      invariant 0 <= k <= |rows|
      invariant SumsTo(ws, cr, cg, cb, k, s)
      invariant s.r <= 65280 * 256 && s.g <= 65280 * 256 && s.b <= 65280 * 256
    {
      var h := buf[rows[k], o];
      s := AddTap(s, h.r, h.g, h.b, ws[k], ws, cr, cg, cb, k, 65280);
      k := k + 1;
    }
    assert ws[..k] == ws && cr[..k] == cr && cg[..k] == cg && cb[..k] == cb;
  }

  /** The three accumulators after k taps. */
  ghost predicate SumsTo(ws: seq<int>, cr: seq<int>, cg: seq<int>, cb: seq<int>, k: nat, s: Sum3)
    requires k <= |ws| == |cr| == |cg| == |cb|
  {
    s.r == Dot(ws[..k], cr[..k]) && s.g == Dot(ws[..k], cg[..k]) && s.b == Dot(ws[..k], cb[..k])
  }

  /** One multiply-add per channel in 32 bits. */
  method AddTap(s: Sum3, r: int, g: int, b: int, w: int,
                ghost ws: seq<int>, ghost cr: seq<int>, ghost cg: seq<int>, ghost cb: seq<int>, ghost k: nat, ghost hi: nat)
    returns (s': Sum3)
    requires k < |ws| == |cr| == |cg| == |cb| && A.Sum(ws) <= 256 && hi <= 65280
    requires forall i :: 0 <= i < |ws| ==> 0 <= ws[i] && 0 <= cr[i] <= hi && 0 <= cg[i] <= hi && 0 <= cb[i] <= hi
    requires SumsTo(ws, cr, cg, cb, k, s) && w == ws[k] && r == cr[k] && g == cg[k] && b == cb[k]
    ensures SumsTo(ws, cr, cg, cb, k + 1, s')
    ensures s'.r <= 65280 * 256 && s'.g <= 65280 * 256 && s'.b <= 65280 * 256
  {
    DotStep(ws, cr, k, hi);
    DotStep(ws, cg, k, hi);
    DotStep(ws, cb, k, hi);
    s' := Sum3(s.r + r * w, s.g + g * w, s.b + b * w);
  }

  /** Adding one product: no 32-bit overflow, since the weights sum to at most 256. */
  lemma DotStep(ws: seq<int>, vs: seq<int>, k: nat, hi: nat)
    requires k < |ws| == |vs| && A.Sum(ws) <= 256 && hi <= 65280
    requires forall i :: 0 <= i < |ws| ==> 0 <= ws[i] && 0 <= vs[i] <= hi
    ensures Dot(ws[..k + 1], vs[..k + 1]) == Dot(ws[..k], vs[..k]) + vs[k] * ws[k]
    ensures 0 <= Dot(ws[..k + 1], vs[..k + 1]) <= 65280 * 256
  {
    assert ws[..k + 1][..k] == ws[..k] && vs[..k + 1][..k] == vs[..k];
    A.SumPrefix(ws, k + 1);
    DotBounds(ws[..k + 1], vs[..k + 1], 0, hi);
    MulBounds(0, A.Sum(ws[..k + 1]), 256, hi);
  }

  /** The cached horizontal pass of source row sy. */
  method HRow(src: Img, ax: A.ScaleAxis, dr: Rect, buf: array2<Sum3>, tag: array<int>, sy: int) returns (slot: int)
    requires RingOK(src, ax.dstN, dr, buf, tag) && ax == A.AxisOf(src.w, ax.dstN) && 0 <= sy < src.h
    modifies buf, tag
    ensures RingOK(src, ax.dstN, dr, buf, tag)
    ensures slot == sy % tag.Length && tag[slot] == sy
    ensures forall s :: 0 <= s < tag.Length && s != slot ==> tag[s] == old(tag[s])
  {
    slot := sy % tag.Length;
    if tag[slot] == sy {
      return;
    }
    tag[slot] := sy;
    var dx := dr.x0;
    while dx < dr.x1
      modifies buf
      invariant dr.x0 <= dx <= dr.x1
      invariant forall o :: 0 <= o < dx - dr.x0 ==> IsHRow(src, ax.dstN, dr.x0 + o, sy, buf[slot, o])
      invariant forall s, o :: 0 <= s < buf.Length0 && s != slot && 0 <= o < buf.Length1 ==> buf[s, o] == old(buf[s, o])
    {
      var sum := SumCells(src, ax, dx, sy);
      buf[slot, dx - dr.x0] := sum;
      dx := dx + 1;
    }
  }

  /** Rows closer together than the ring is long never share a slot. */
  lemma SlotsDiffer(a: int, b: int, ring: int)
    requires 0 <= a < b < a + ring
    ensures a % ring != b % ring
  {
    if a % ring == b % ring {
      A.DivFloor(a, ring);
      A.DivFloor(b, ring);
      A.MulLess(a / ring, b / ring, ring);
      A.MulLess(b / ring, a / ring, ring);
      assert false;
    }
  }

  /** Rounded pixel from the cached rows listed in `rows`. */
  method MixRows(src: Img, dw: int, dh: int, dx: int, dy: int, buf: array2<Sum3>, o: int, rows: seq<int>, ws: seq<int>) returns (p: Pixel)
    requires CanScale(src, dw, dh) && 0 <= dx < dw && 0 <= dy < dh && Cnt(src.h, dh, dy) != 1
    requires |rows| == |ws| == Cnt(src.h, dh, dy) && 0 <= o < buf.Length1
    requires ws == Taps(src.h, dh, dy)
    requires A.First(src.h, dh, dy) >= 0 && A.First(src.h, dh, dy) + |rows| <= src.h
    requires forall k :: 0 <= k < |rows| ==> 0 <= rows[k] < buf.Length0 && IsHRow(src, dw, dx, A.First(src.h, dh, dy) + k, buf[rows[k], o])
    ensures p == ScaledPixel(src, dw, dh, dx, dy)
  {
    hide A.WeightRow, HPass;
    ghost var cr, cg, cb := Column(src, dw, dh, dx, dy, 0), Column(src, dw, dh, dx, dy, 1), Column(src, dw, dh, dx, dy, 2);
    TapWeights(src.h, dh, dy);
    ColumnBounds(src, dw, dh, dx, dy, 0);
    ColumnBounds(src, dw, dh, dx, dy, 1);
    ColumnBounds(src, dw, dh, dx, dy, 2);
    forall k | 0 <= k < |rows|
      ensures var h := buf[rows[k], o]; h.r == cr[k] && h.g == cg[k] && h.b == cb[k]
    {
      RowsAreColumn(src, dw, dh, dx, dy, k, buf[rows[k], o]);
    }
    var s := DotRows(buf, o, rows, ws, cr, cg, cb);
    MixedPixel(src, dw, dh, dx, dy, s);
    p := Pixel((s.r + 32768) / 65536 % 256, (s.g + 32768) / 65536 % 256, (s.b + 32768) / 65536 % 256, 255);
  }

  lemma MixedPixel(src: Img, dw: int, dh: int, dx: int, dy: int, s: Sum3)
    requires CanScale(src, dw, dh) && 0 <= dx < dw && 0 <= dy < dh && Cnt(src.h, dh, dy) != 1
    requires s.r == VPass(src, dw, dh, dx, dy, 0) && s.g == VPass(src, dw, dh, dx, dy, 1) && s.b == VPass(src, dw, dh, dx, dy, 2)
    ensures ScaledPixel(src, dw, dh, dx, dy)
            == Pixel((s.r + 32768) / 65536 % 256, (s.g + 32768) / 65536 % 256, (s.b + 32768) / 65536 % 256, 255)
  {
    hide A.First, A.Span, A.TapsOf, A.WeightRow, Taps, HPass, VPass;
    ChannelIsByte(src, dw, dh, dx, dy, 0);
    ChannelIsByte(src, dw, dh, dx, dy, 1);
    ChannelIsByte(src, dw, dh, dx, dy, 2);
  }

  lemma RowsAreColumn(src: Img, dw: int, dh: int, dx: int, dy: int, k: int, s: Sum3)
    requires CanScale(src, dw, dh) && 0 <= dx < dw && 0 <= dy < dh && 0 <= k < Cnt(src.h, dh, dy)
    requires 0 <= A.First(src.h, dh, dy) + k < src.h && IsHRow(src, dw, dx, A.First(src.h, dh, dy) + k, s)
    ensures |Column(src, dw, dh, dx, dy, 0)| == |Column(src, dw, dh, dx, dy, 1)| == |Column(src, dw, dh, dx, dy, 2)| == Cnt(src.h, dh, dy)
    ensures s.r == Column(src, dw, dh, dx, dy, 0)[k] && s.g == Column(src, dw, dh, dx, dy, 1)[k] && s.b == Column(src, dw, dh, dx, dy, 2)[k]
  {
  }

  lemma ColumnBounds(src: Img, dw: int, dh: int, dx: int, dy: int, c: int)
    requires CanScale(src, dw, dh) && 0 <= dx < dw && 0 <= dy < dh
    ensures forall k :: 0 <= k < |Column(src, dw, dh, dx, dy, c)| ==> 0 <= Column(src, dw, dh, dx, dy, c)[k] <= 65280
  {
    TapFacts(src.h, dh, dy);
    forall sy | 0 <= sy < src.h
      ensures 0 <= HPass(src, dw, dx, sy, c) <= 65280
    {
      HBounds(src, dw, dx, sy, c, 0, 255);
    }
  }

  method RoundRow(src: Img, dw: int, dh: int, dx: int, dy: int, h: Sum3) returns (p: Pixel)
    requires CanScale(src, dw, dh) && 0 <= dx < dw && 0 <= dy < dh && Cnt(src.h, dh, dy) == 1
    requires 0 <= A.First(src.h, dh, dy) < src.h && IsHRow(src, dw, dx, A.First(src.h, dh, dy), h)
    ensures p == ScaledPixel(src, dw, dh, dx, dy)
  {
    hide A.First, A.Span, A.TapsOf, A.WeightRow, Taps, HPass, VPass;
    ChannelIsByte(src, dw, dh, dx, dy, 0);
    ChannelIsByte(src, dw, dh, dx, dy, 1);
    ChannelIsByte(src, dw, dh, dx, dy, 2);
    p := Pixel((h.r + 128) / 256 % 256, (h.g + 128) / 256 % 256, (h.b + 128) / 256 % 256, 255);
  }

  /** The slots of rows s0 .. s0+n-1; they are all cached at once. */
  method GatherRows(src: Img, ax: A.ScaleAxis, dr: Rect, buf: array2<Sum3>, tag: array<int>, s0: int, n: int) returns (rows: seq<int>)
    requires RingOK(src, ax.dstN, dr, buf, tag) && ax == A.AxisOf(src.w, ax.dstN)
    requires 0 <= s0 && 0 <= n < tag.Length && s0 + n <= src.h
    modifies buf, tag
    ensures RingOK(src, ax.dstN, dr, buf, tag)
    ensures |rows| == n && forall i :: 0 <= i < n ==> 0 <= rows[i] < tag.Length && tag[rows[i]] == s0 + i
  {
    rows := [];
    var k := 0;
    while k < n
      invariant 0 <= k <= n && |rows| == k
      invariant RingOK(src, ax.dstN, dr, buf, tag)
      invariant forall i :: 0 <= i < k ==> 0 <= rows[i] < tag.Length && rows[i] == (s0 + i) % tag.Length && tag[rows[i]] == s0 + i
    {
      var slot := HRow(src, ax, dr, buf, tag, s0 + k);
      forall i | 0 <= i < k
        ensures rows[i] != slot
      {
        SlotsDiffer(s0 + i, s0 + k, tag.Length);
      }
      rows := rows + [slot];
      k := k + 1;
    }
  }

  ghost predicate RowsCached(src: Img, dw: int, dh: int, dr: Rect, buf: array2<Sum3>, rows: seq<int>, dy: int)
    requires CanScale(src, dw, dh) && dr.Within(dw, dh) && 0 <= dy < dh
    reads buf
  {
    TapFacts(src.h, dh, dy);
    && |rows| == Cnt(src.h, dh, dy) && buf.Length1 == dr.Dx()
    && forall k :: 0 <= k < |rows| ==> RowCached(src, dw, dr, buf, rows[k], A.First(src.h, dh, dy) + k)
  }

  ghost predicate RowCached(src: Img, dw: int, dr: Rect, buf: array2<Sum3>, slot: int, sy: int)
    requires CanScale(src, dw, 1) && 0 <= dr.x0 <= dr.x1 <= dw && 0 <= sy < src.h && buf.Length1 == dr.Dx()
    reads buf
  {
    && 0 <= slot < buf.Length0
    && forall o :: 0 <= o < dr.Dx() ==> IsHRow(src, dw, dr.x0 + o, sy, buf[slot, o])
  }

  /** Pixel x of destination row dy: the single-row shortcut or the weighted mix. */
  method BandPixel(src: Img, dw: int, dh: int, dr: Rect, buf: array2<Sum3>, rows: seq<int>, ws: seq<int>, dy: int, x: int) returns (p: Pixel)
    requires CanScale(src, dw, dh) && dr.Within(dw, dh) && dr.y0 <= dy < dr.y1 && dr.x0 <= x < dr.x1
    requires RowsCached(src, dw, dh, dr, buf, rows, dy) && ws == Taps(src.h, dh, dy) && |ws| == |rows|
    ensures p == ScaledPixel(src, dw, dh, x, dy)
  {
    hide A.First, A.Span, A.TapsOf, A.WeightRow, Taps, Cnt, HPass, VPass, Channel, ScaledPixel;
    TapFacts(src.h, dh, dy);
    var o := x - dr.x0;
    forall k | 0 <= k < |rows|
      ensures 0 <= rows[k] < buf.Length0 && IsHRow(src, dw, x, A.First(src.h, dh, dy) + k, buf[rows[k], o])
    {
      assert RowCached(src, dw, dr, buf, rows[k], A.First(src.h, dh, dy) + k);
    }
    if |rows| == 1 {
      p := RoundRow(src, dw, dh, x, dy, buf[rows[0], o]);
    } else {
      p := MixRows(src, dw, dh, x, dy, buf, o, rows, ws);
    }
  }

  /** Writes destination row dy from the cached rows. */
  method PaintRow(dst: array2<Pixel>, src: Img, dw: int, dh: int, dr: Rect, buf: array2<Sum3>, rows: seq<int>, ws: seq<int>, dy: int)
    requires CanScale(src, dw, dh) && dr.Within(dw, dh) && dr.y0 <= dy < dr.y1
    requires RowsCached(src, dw, dh, dr, buf, rows, dy) && ws == Taps(src.h, dh, dy) && |ws| == |rows|
    requires dst.Length0 == dh && dst.Length1 == dw
    modifies dst
    ensures forall y, x :: 0 <= y < dst.Length0 && 0 <= x < dst.Length1 ==>
                             dst[y, x] == if y == dy && dr.x0 <= x < dr.x1 then ScaledPixel(src, dw, dh, x, y) else old(dst[y, x])
  {
    hide RowsCached, A.WeightRow, Taps, HPass, VPass, Channel, ScaledPixel;
    var x := dr.x0;
    while x < dr.x1
      invariant dr.x0 <= x <= dr.x1 && RowsCached(src, dw, dh, dr, buf, rows, dy)
      invariant forall y', x' :: 0 <= y' < dst.Length0 && 0 <= x' < dst.Length1 ==>
                                   dst[y', x'] == if y' == dy && dr.x0 <= x' < x then ScaledPixel(src, dw, dh, x', y') else old(dst[y', x'])
    {
      var p := BandPixel(src, dw, dh, dr, buf, rows, ws, dy, x);
      dst[dy, x] := p;
      x := x + 1;
    }
  }

  /** Destination row dy of the band. */
  method ScaleRow(dst: array2<Pixel>, src: Img, ax: A.ScaleAxis, ay: A.ScaleAxis, dr: Rect, buf: array2<Sum3>, tag: array<int>, dy: int)
    requires RingOK(src, ax.dstN, dr, buf, tag) && ax == A.AxisOf(src.w, ax.dstN)
    requires CanScale(src, ax.dstN, ay.dstN) && ay == A.AxisOf(src.h, ay.dstN) && tag.Length == ay.taps + 1
    requires dr.Within(ax.dstN, ay.dstN) && dr.y0 <= dy < dr.y1
    requires dst.Length0 == ay.dstN && dst.Length1 == ax.dstN
    modifies dst, buf, tag
    ensures RingOK(src, ax.dstN, dr, buf, tag)
    ensures forall y, x :: 0 <= y < dst.Length0 && 0 <= x < dst.Length1 ==>
                             dst[y, x] == if y == dy && dr.x0 <= x < dr.x1 then ScaledPixel(src, ax.dstN, ay.dstN, x, y) else old(dst[y, x])
  {
    TapFacts(src.h, ay.dstN, dy);
    var rows := GatherRows(src, ax, dr, buf, tag, ay.start[dy], ay.cnt[dy]);
    PaintRow(dst, src, ax.dstN, ay.dstN, dr, buf, rows, ay.w[dy][..ay.cnt[dy]], dy);
  }

  /** One band: exactly the uncached filter inside dr, nothing else touched. */
  method ScaleBand(dst: array2<Pixel>, src: Img, ax: A.ScaleAxis, ay: A.ScaleAxis, dr: Rect)
    requires CanScale(src, ax.dstN, ay.dstN) && ax == A.AxisOf(src.w, ax.dstN) && ay == A.AxisOf(src.h, ay.dstN)
    requires dr.Within(ax.dstN, ay.dstN) && dst.Length0 == ay.dstN && dst.Length1 == ax.dstN
    modifies dst
    ensures forall y, x :: 0 <= y < dst.Length0 && 0 <= x < dst.Length1 ==>
                             dst[y, x] == if dr.Has(x, y) then ScaledPixel(src, ax.dstN, ay.dstN, x, y) else old(dst[y, x])
  {
    A.SpanBounds(src.h, ay.dstN, 0);
    var ring := ay.taps + 1;
    var buf := new Sum3[ring, dr.Dx()]((i, j) => Sum3(0, 0, 0));
    var tag := new int[ring](_ => -1);
    var dy := dr.y0;
    while dy < dr.y1
      modifies dst, buf, tag
      invariant dr.y0 <= dy <= dr.y1
      invariant RingOK(src, ax.dstN, dr, buf, tag)
      invariant forall y, x :: 0 <= y < dst.Length0 && 0 <= x < dst.Length1 ==>
                                 dst[y, x] == if dr.Has(x, y) && y < dy then ScaledPixel(src, ax.dstN, ay.dstN, x, y) else old(dst[y, x])
    {
      ScaleRow(dst, src, ax, ay, dr, buf, tag, dy);
      dy := dy + 1;
    }
  }

  /** A band in the hands of a worker: its rectangle, its ring, and the next row. */
  datatype Band = Band(dr: Rect, buf: array2<Sum3>, tag: array<int>, dy: int)

  ghost predicate BandOK(src: Img, ax: A.ScaleAxis, ay: A.ScaleAxis, b: Band)
    reads b.buf, b.tag
  {
    && RingOK(src, ax.dstN, b.dr, b.buf, b.tag) && b.tag.Length == ay.taps + 1
    && b.dr.Within(ax.dstN, ay.dstN) && b.dr.y0 <= b.dy <= b.dr.y1
  }

  /** Workers share nothing but the image. */
  ghost predicate Separate(bs: seq<Band>) {
    forall k, l :: 0 <= k < l < |bs| ==> bs[k].buf != bs[l].buf && bs[k].tag != bs[l].tag
  }

  /** Row y has been written by some worker. */
  ghost predicate Written(bs: seq<Band>, y: int) {
    exists k :: 0 <= k < |bs| && bs[k].dr.y0 <= y < bs[k].dy
  }

  ghost predicate InBand(bs: seq<Band>, y: int) {
    exists k :: 0 <= k < |bs| && bs[k].dr.y0 <= y < bs[k].dr.y1
  }

  ghost function RowsLeft(bs: seq<Band>): nat {
    if bs == [] then 0 else RowsLeft(bs[..|bs| - 1]) + Max(bs[|bs| - 1].dr.y1 - bs[|bs| - 1].dy, 0)
  }

  lemma {:induction false} OneRowLess(bs: seq<Band>, k: nat)
    requires k < |bs| && bs[k].dy < bs[k].dr.y1
    ensures RowsLeft(bs[k := bs[k].(dy := bs[k].dy + 1)]) + 1 == RowsLeft(bs)
  {
    var n := |bs| - 1;
    var r := bs[k := bs[k].(dy := bs[k].dy + 1)];
    if k == n {
      assert r[..n] == bs[..n];
    } else {
      OneRowLess(bs[..n], k);
      assert r[..n] == bs[..n][k := bs[k].(dy := bs[k].dy + 1)];
    }
  }

  lemma WrittenGrows(bs: seq<Band>, k: nat, y: int)
    requires k < |bs| && bs[k].dr.y0 <= bs[k].dy
    ensures Written(bs[k := bs[k].(dy := bs[k].dy + 1)], y) <==> Written(bs, y) || y == bs[k].dy
  {
    var r := bs[k := bs[k].(dy := bs[k].dy + 1)];
    assert r[k].dr == bs[k].dr;
    if Written(bs, y) {
      var l :| 0 <= l < |bs| && bs[l].dr.y0 <= y < bs[l].dy;
      assert r[l].dr.y0 <= y < r[l].dy;
    }
  }

  /** The bands made so far cover the region's rows before y. */
  ghost predicate BandsUpTo(src: Img, ax: A.ScaleAxis, ay: A.ScaleAxis, dr: Rect, bs: seq<Band>, y: int)
    reads set k | 0 <= k < |bs| :: bs[k].buf, set k | 0 <= k < |bs| :: bs[k].tag
  {
    && Separate(bs) && AllOK(src, ax, ay, bs)
    && (forall k :: 0 <= k < |bs| ==> bs[k].dy == bs[k].dr.y0 && bs[k].dr.x0 == dr.x0 && bs[k].dr.x1 == dr.x1)
    && (forall z :: InBand(bs, z) <==> dr.y0 <= z < Min(y, dr.y1))
  }

  method MakeBand(src: Img, ax: A.ScaleAxis, ay: A.ScaleAxis, dr: Rect) returns (b: Band)
    requires CanScale(src, ax.dstN, ay.dstN) && ay == A.AxisOf(src.h, ay.dstN) && dr.Within(ax.dstN, ay.dstN)
    ensures fresh(b.buf) && fresh(b.tag) && BandOK(src, ax, ay, b) && b.dr == dr && b.dy == dr.y0
  {
    A.SpanBounds(src.h, ay.dstN, 0);
    var buf := new Sum3[ay.taps + 1, dr.Dx()]((i, j) => Sum3(0, 0, 0));
    var tag := new int[ay.taps + 1](_ => -1);
    b := Band(dr, buf, tag, dr.y0);
  }

  lemma InBandGrows(bs: seq<Band>, b: Band, z: int)
    ensures InBand(bs + [b], z) <==> InBand(bs, z) || b.dr.y0 <= z < b.dr.y1
  {
    var r := bs + [b];
    if InBand(bs, z) {
      var l :| 0 <= l < |bs| && bs[l].dr.y0 <= z < bs[l].dr.y1;
      assert r[l].dr.y0 <= z < r[l].dr.y1;
    }
    if b.dr.y0 <= z < b.dr.y1 {
      assert r[|bs|].dr.y0 <= z < r[|bs|].dr.y1;
    }
  }

  /** The bands of a region: consecutive groups of `per` rows, each with a ring of its own. */
  method MakeBands(src: Img, ax: A.ScaleAxis, ay: A.ScaleAxis, dr: Rect, per: int) returns (bs: seq<Band>)
    requires CanScale(src, ax.dstN, ay.dstN) && ay == A.AxisOf(src.h, ay.dstN) && dr.Within(ax.dstN, ay.dstN) && per > 0
    ensures BandsUpTo(src, ax, ay, dr, bs, dr.y1) && forall k :: 0 <= k < |bs| ==> fresh(bs[k].buf) && fresh(bs[k].tag)
  {
    hide RingOK, A.AxisOf, InBand, BandOK;
    bs := [];
    assert forall z :: !InBand([], z) by { NoBand(); }
    var y := dr.y0;
    while y < dr.y1
      invariant dr.y0 <= y && BandsUpTo(src, ax, ay, dr, bs, y)
      invariant forall k :: 0 <= k < |bs| ==> fresh(bs[k].buf) && fresh(bs[k].tag)
    {
      var b := MakeBand(src, ax, ay, Corners(dr.x0, y, dr.x1, Min(y + per, dr.y1)));
      forall z
        ensures InBand(bs + [b], z) <==> InBand(bs, z) || b.dr.y0 <= z < b.dr.y1
      {
        InBandGrows(bs, b, z);
      }
      bs := bs + [b];
      y := y + per;
    }
  }

  lemma NoBand()
    ensures forall z :: !InBand([], z)
  {
  }

  ghost function Snapshot(a: array2<Pixel>): seq<seq<Pixel>>
    reads a
  {
    seq(a.Length0, y requires 0 <= y < a.Length0 reads a => seq(a.Length1, x requires 0 <= x < a.Length1 reads a => a[y, x]))
  }

  /** Rows that were written hold the uncached filter, all other pixels are as they were. */
  ghost predicate RowsPainted(dst: array2<Pixel>, was: seq<seq<Pixel>>, src: Img, dw: int, dh: int, dr: Rect, bs: seq<Band>)
    requires CanScale(src, dw, dh) && dst.Length0 == dh && dst.Length1 == dw
    reads dst
  {
    |was| == dh && (forall y :: 0 <= y < dh ==> |was[y]| == dw)
    && forall y, x :: 0 <= y < dh && 0 <= x < dw ==>
                        dst[y, x] == if dr.x0 <= x < dr.x1 && Written(bs, y) then ScaledPixel(src, dw, dh, x, y) else was[y][x]
  }

  ghost predicate AllOK(src: Img, ax: A.ScaleAxis, ay: A.ScaleAxis, bs: seq<Band>)
    reads set k | 0 <= k < |bs| :: bs[k].buf, set k | 0 <= k < |bs| :: bs[k].tag
  {
    forall k :: 0 <= k < |bs| ==> BandOK(src, ax, ay, bs[k])
  }

  /** One worker writes its next row. */
  method StepBand(dst: array2<Pixel>, ghost was: seq<seq<Pixel>>, src: Img, ax: A.ScaleAxis, ay: A.ScaleAxis, dr: Rect, bs: seq<Band>, k: nat) returns (bs': seq<Band>)
    requires CanScale(src, ax.dstN, ay.dstN) && ax == A.AxisOf(src.w, ax.dstN) && ay == A.AxisOf(src.h, ay.dstN)
    requires dst.Length0 == ay.dstN && dst.Length1 == ax.dstN && Separate(bs) && AllOK(src, ax, ay, bs)
    requires k < |bs| && bs[k].dy < bs[k].dr.y1 && bs[k].dr.x0 == dr.x0 && bs[k].dr.x1 == dr.x1
    requires RowsPainted(dst, was, src, ax.dstN, ay.dstN, dr, bs)
    modifies dst, bs[k].buf, bs[k].tag
    ensures bs' == bs[k := bs[k].(dy := bs[k].dy + 1)]
    ensures AllOK(src, ax, ay, bs') && RowsPainted(dst, was, src, ax.dstN, ay.dstN, dr, bs')
  {
    hide RingOK, A.AxisOf, ScaledPixel, Written;
    var b := bs[k];
    ScaleRow(dst, src, ax, ay, b.dr, b.buf, b.tag, b.dy);
    forall y
      ensures Written(bs[k := b.(dy := b.dy + 1)], y) <==> Written(bs, y) || y == b.dy
    {
      WrittenGrows(bs, k, y);
    }
    bs' := bs[k := b.(dy := b.dy + 1)];
    forall l | 0 <= l < |bs'|
      ensures BandOK(src, ax, ay, bs'[l])
    {
      assert l != k ==> bs[l].buf != b.buf && bs[l].tag != b.tag;
    }
  }

  lemma NothingWritten(dst: array2<Pixel>, src: Img, dw: int, dh: int, dr: Rect, bs: seq<Band>)
    requires CanScale(src, dw, dh) && dst.Length0 == dh && dst.Length1 == dw
    requires forall k :: 0 <= k < |bs| ==> bs[k].dy == bs[k].dr.y0
    ensures RowsPainted(dst, Snapshot(dst), src, dw, dh, dr, bs)
  {
    hide ScaledPixel;
    assert forall y :: !Written(bs, y);
  }

  /** The workers, row by row in any order the scheduler picks. */
  method RunBands(dst: array2<Pixel>, src: Img, ax: A.ScaleAxis, ay: A.ScaleAxis, dr: Rect, bands: seq<Band>)
    requires CanScale(src, ax.dstN, ay.dstN) && ax == A.AxisOf(src.w, ax.dstN) && ay == A.AxisOf(src.h, ay.dstN)
    requires dr.Within(ax.dstN, ay.dstN) && dst.Length0 == ay.dstN && dst.Length1 == ax.dstN
    requires Separate(bands) && AllOK(src, ax, ay, bands)
    requires forall k :: 0 <= k < |bands| ==> bands[k].dy == bands[k].dr.y0 && bands[k].dr.x0 == dr.x0 && bands[k].dr.x1 == dr.x1
    requires forall y :: InBand(bands, y) <==> dr.y0 <= y < dr.y1
    modifies dst, set k | 0 <= k < |bands| :: bands[k].buf, set k | 0 <= k < |bands| :: bands[k].tag
    ensures forall y, x :: 0 <= y < dst.Length0 && 0 <= x < dst.Length1 ==>
                             dst[y, x] == if dr.Has(x, y) then ScaledPixel(src, ax.dstN, ay.dstN, x, y) else old(dst[y, x])
  {
    hide RingOK, BandOK, AllOK, RowsPainted, A.AxisOf, ScaledPixel, Written, InBand;
    ghost var was := Snapshot(dst);
    NothingWritten(dst, src, ax.dstN, ay.dstN, dr, bands);
    var bs := bands;
    while exists k :: 0 <= k < |bs| && bs[k].dy < bs[k].dr.y1
      invariant |bs| == |bands| && Separate(bs) && forall k :: 0 <= k < |bs| ==> bs[k] == bands[k].(dy := bs[k].dy)
      invariant AllOK(src, ax, ay, bs) && RowsPainted(dst, was, src, ax.dstN, ay.dstN, dr, bs)
      decreases RowsLeft(bs)
    {
      var k :| 0 <= k < |bs| && bs[k].dy < bs[k].dr.y1; // the scheduler's choice
      OneRowLess(bs, k);
      bs := StepBand(dst, was, src, ax, ay, dr, bs, k);
    }
    AllPainted(dst, was, src, ax, ay, dr, bands, bs);
  }

  lemma AllPainted(dst: array2<Pixel>, was: seq<seq<Pixel>>, src: Img, ax: A.ScaleAxis, ay: A.ScaleAxis, dr: Rect, bands: seq<Band>, bs: seq<Band>)
    requires CanScale(src, ax.dstN, ay.dstN) && dst.Length0 == ay.dstN && dst.Length1 == ax.dstN && AllOK(src, ax, ay, bs)
    requires |bs| == |bands| && forall k :: 0 <= k < |bs| ==> bs[k] == bands[k].(dy := bs[k].dy) && bs[k].dy >= bs[k].dr.y1
    requires forall y :: InBand(bands, y) <==> dr.y0 <= y < dr.y1
    requires RowsPainted(dst, was, src, ax.dstN, ay.dstN, dr, bs)
    ensures |was| == dst.Length0 && forall y :: 0 <= y < |was| ==> |was[y]| == dst.Length1
    ensures forall y, x :: 0 <= y < dst.Length0 && 0 <= x < dst.Length1 ==>
                             dst[y, x] == if dr.Has(x, y) then ScaledPixel(src, ax.dstN, ay.dstN, x, y) else was[y][x]
  {
    hide RingOK, ScaledPixel;
    forall k | 0 <= k < |bs|
      ensures bs[k].dy == bs[k].dr.y1
    {
      assert BandOK(src, ax, ay, bs[k]);
    }
    hide BandOK;
    forall y
      ensures Written(bs, y) <==> dr.y0 <= y < dr.y1
    {
      AllWritten(bands, bs, y);
    }
    hide Written, InBand;
  }

  lemma AllWritten(bands: seq<Band>, bs: seq<Band>, y: int)
    requires |bs| == |bands| && forall k :: 0 <= k < |bs| ==> bs[k].dr == bands[k].dr && bs[k].dy == bs[k].dr.y1
    ensures Written(bs, y) <==> InBand(bands, y)
  {
    if InBand(bands, y) {
      var k :| 0 <= k < |bands| && bands[k].dr.y0 <= y < bands[k].dr.y1;
      assert bs[k].dr.y0 <= y < bs[k].dy;
    }
  }

  /** Bands of rows for any number of processors, in any interleaving of their rows: the same
      pixels as a single band. */
  method ScaleRegion(dst: array2<Pixel>, src: Img, ax: A.ScaleAxis, ay: A.ScaleAxis, dr: Rect, procs: int)
    requires CanScale(src, ax.dstN, ay.dstN) && ax == A.AxisOf(src.w, ax.dstN) && ay == A.AxisOf(src.h, ay.dstN)
    requires dr.Within(ax.dstN, ay.dstN) && dst.Length0 == ay.dstN && dst.Length1 == ax.dstN
    modifies dst
    ensures forall y, x :: 0 <= y < dst.Length0 && 0 <= x < dst.Length1 ==>
                             dst[y, x] == if dr.Has(x, y) then ScaledPixel(src, ax.dstN, ay.dstN, x, y) else old(dst[y, x])
  {
    if dr.Empty() {
      return;
    }
    hide RingOK, BandOK, InBand, A.AxisOf, ScaledPixel;
    var workers := Min(procs, 8);
    var rows := dr.Dy();
    if workers > 1 && rows * dr.Dx() >= 64 * 1024 {
      workers := Min(workers, rows / 8);
    } else {
      workers := 1;
    }
    if workers <= 1 {
      ScaleBand(dst, src, ax, ay, dr);
      return;
    }
    var per := (rows + workers - 1) / workers;
    A.DivAtLeast(rows + workers - 1, workers, 1);
    var bands := MakeBands(src, ax, ay, dr, per);
    RunBands(dst, src, ax, ay, dr, bands);
  }
}
