/** Dirty-region hints: source rectangles become tiles of the destination grid, and only
    those tiles are compared. */
module Hint {
  import opened Geometry
  import opened Raster
  import opened Tiles
  import Axis

  const SCALE_MARGIN: int := 2

  /** ok == false: nothing is known; ok == true: nothing outside `rects` changed. */
  datatype SrcHint = SrcHint(ok: bool, rects: seq<Rect>)

  /** The hint covers every difference from the capture `seen`; after a size change it
      covers everything. */
  ghost predicate HintCovers(seen: Option<Img>, img: Img, h: SrcHint) {
    h.ok && seen.Some? ==>
      if SameSize(seen.value, img) then AgreeOutside(seen.value, img, h.rects)
      else forall x, y :: 0 <= x < img.w && 0 <= y < img.h ==> InSome(h.rects, x, y)
  }

  /** A source rectangle carried to destination pixels, widened by the margin and clipped. */
  function DstBox(r: Rect, sw: int, sh: int, dw: int, dh: int, margin: int): Rect
    requires sw > 0 && sh > 0
  {
    Rect(Max(r.x0 * dw / sw - margin, 0), Max(r.y0 * dh / sh - margin, 0),
         Min((r.x1 * dw + sw - 1) / sw + margin, dw), Min((r.y1 * dh + sh - 1) / sh + margin, dh))
  }

  /** The hint rectangle flags tile (i, j). */
  ghost predicate Marks(r: Rect, sw: int, sh: int, dw: int, dh: int, margin: int, i: int, j: int)
    requires sw > 0 && sh > 0
  {
    var c := r.Intersect(Rect(0, 0, sw, sh));
    var b := DstBox(c, sw, sh, dw, dh, margin);
    !c.Empty() && !b.Empty() && TileHits(b, i, j)
  }

  /** Tile (i, j) meets the non-empty box b. */
  ghost predicate TileHits(b: Rect, i: int, j: int) {
    b.x0 / TILE <= i <= (b.x1 - 1) / TILE && b.y0 / TILE <= j <= (b.y1 - 1) / TILE
  }

  ghost predicate Marked(rects: seq<Rect>, sw: int, sh: int, dw: int, dh: int, margin: int, i: int, j: int)
    requires sw > 0 && sh > 0
  {
    exists k :: 0 <= k < |rects| && Marks(rects[k], sw, sh, dw, dh, margin, i, j)
  }

  /** The mask flags exactly the tiles that some hint rectangle reaches. */
  ghost predicate IsHintMask(rects: seq<Rect>, sw: int, sh: int, dw: nat, dh: nat, margin: int, mask: seq<bool>) {
    var tx, ty := TilesFor(dw), TilesFor(dh);
    && |mask| == tx * ty
    && forall i, j :: TileBit(mask, tx, i, j) <==>
                      sw > 0 && sh > 0 && 0 <= i < tx && 0 <= j < ty && Marked(rects, sw, sh, dw, dh, margin, i, j)
  }

  /** Flags the tiles the box reaches, row by row. */
  method MarkBox(mask: seq<bool>, b: Rect, dw: nat, dh: nat) returns (mask': seq<bool>)
    requires |mask| == TilesFor(dw) * TilesFor(dh)
    requires !b.Empty() && b.Within(dw, dh)
    ensures |mask'| == |mask|
    ensures forall i, j :: TileBit(mask', TilesFor(dw), i, j) <==> TileBit(mask, TilesFor(dw), i, j) || TileHits(b, i, j)
  {
    var tx, ty := TilesFor(dw), TilesFor(dh);
    mask' := mask;
    var j := b.y0 / TILE;
    while j <= (b.y1 - 1) / TILE
      invariant b.y0 / TILE <= j <= (b.y1 - 1) / TILE + 1 && |mask'| == |mask|
      invariant forall i', j' :: TileBit(mask', tx, i', j') <==> TileBit(mask, tx, i', j') || (TileHits(b, i', j') && j' < j)
    {
      var i := b.x0 / TILE;
      while i <= (b.x1 - 1) / TILE
        invariant b.x0 / TILE <= i <= (b.x1 - 1) / TILE + 1 && |mask'| == |mask|
        invariant forall i', j' :: TileBit(mask', tx, i', j') <==>
                                   TileBit(mask, tx, i', j') || (TileHits(b, i', j') && (j' < j || (j' == j && i' < i)))
      {
        SetBit(mask', tx, ty, i, j);
        mask' := mask'[TileAt(i, j, tx, ty) := true];
        i := i + 1;
      }
      j := j + 1;
    }
  }

  /** Flags the tiles one hint rectangle reaches. */
  method MarkRect(mask: seq<bool>, r: Rect, sw: int, sh: int, dw: nat, dh: nat, margin: int) returns (mask': seq<bool>)
    requires sw > 0 && sh > 0 && |mask| == TilesFor(dw) * TilesFor(dh)
    ensures |mask'| == |mask|
    ensures forall i, j :: TileBit(mask', TilesFor(dw), i, j) <==> TileBit(mask, TilesFor(dw), i, j) || Marks(r, sw, sh, dw, dh, margin, i, j)
  {
    hide DstBox, TileBit, TileHits;
    mask' := mask;
    var c := r.Intersect(Rect(0, 0, sw, sh));
    if c.Empty() {
      return;
    }
    var b := DstBox(c, sw, sh, dw, dh, margin);
    if b.Empty() {
      return;
    }
    BoxClipped(c, sw, sh, dw, dh, margin);
    mask' := MarkBox(mask, b, dw, dh);
  }

  lemma BoxClipped(r: Rect, sw: int, sh: int, dw: int, dh: int, margin: int)
    requires sw > 0 && sh > 0 && !DstBox(r, sw, sh, dw, dh, margin).Empty()
    ensures DstBox(r, sw, sh, dw, dh, margin).Within(dw, dh)
  {
  }

  method HintTiles(rects: seq<Rect>, sw: int, sh: int, dw: nat, dh: nat, margin: int) returns (mask: seq<bool>)
    ensures IsHintMask(rects, sw, sh, dw, dh, margin, mask)
  {
    var tx, ty := TilesFor(dw), TilesFor(dh);
    mask := seq(tx * ty, _ => false);
    NoMarks(rects, sw, sh, dw, dh, margin, mask);
    if sw <= 0 || sh <= 0 {
      return;
    }
    hide IsHintMask;
    var k := 0;
    while k < |rects|
      invariant 0 <= k <= |rects| && |mask| == tx * ty
      invariant IsHintMask(rects[..k], sw, sh, dw, dh, margin, mask)
    {
      var mask' := MarkRect(mask, rects[k], sw, sh, dw, dh, margin);
      MaskGrows(rects, k, sw, sh, dw, dh, margin, mask, mask');
      mask := mask';
      k := k + 1;
    }
    assert rects[..k] == rects;
  }

  lemma NoMarks(rects: seq<Rect>, sw: int, sh: int, dw: nat, dh: nat, margin: int, mask: seq<bool>)
    requires |mask| == TilesFor(dw) * TilesFor(dh) && forall k :: 0 <= k < |mask| ==> !mask[k]
    ensures IsHintMask(if sw <= 0 || sh <= 0 then rects else rects[..0], sw, sh, dw, dh, margin, mask)
  {
  }

  lemma MaskGrows(rects: seq<Rect>, k: nat, sw: int, sh: int, dw: nat, dh: nat, margin: int, mask: seq<bool>, mask': seq<bool>)
    requires k < |rects| && sw > 0 && sh > 0 && |mask'| == |mask| && IsHintMask(rects[..k], sw, sh, dw, dh, margin, mask)
    requires forall i, j :: TileBit(mask', TilesFor(dw), i, j) <==> TileBit(mask, TilesFor(dw), i, j) || Marks(rects[k], sw, sh, dw, dh, margin, i, j)
    ensures IsHintMask(rects[..k + 1], sw, sh, dw, dh, margin, mask')
  {
    MarkedStep(rects, k, sw, sh, dw, dh, margin);
    MarksInGrid(rects[k], sw, sh, dw, dh, margin);
    hide Marked, Marks, TileBit;
  }

  lemma MarksInGrid(r: Rect, sw: int, sh: int, dw: nat, dh: nat, margin: int)
    requires sw > 0 && sh > 0
    ensures forall i, j :: Marks(r, sw, sh, dw, dh, margin, i, j) ==> 0 <= i < TilesFor(dw) && 0 <= j < TilesFor(dh)
  {
    var b := DstBox(r.Intersect(Rect(0, 0, sw, sh)), sw, sh, dw, dh, margin);
    if !b.Empty() {
      BoxInGrid(b, dw, dh);
    }
  }

  lemma BoxInGrid(b: Rect, dw: nat, dh: nat)
    requires !b.Empty() && b.Within(dw, dh)
    ensures forall i, j :: TileHits(b, i, j) ==> 0 <= i < TilesFor(dw) && 0 <= j < TilesFor(dh)
  {
  }

  lemma MarkedStep(rects: seq<Rect>, k: nat, sw: int, sh: int, dw: int, dh: int, margin: int)
    requires k < |rects| && sw > 0 && sh > 0
    ensures forall i, j :: Marked(rects[..k + 1], sw, sh, dw, dh, margin, i, j) <==>
                           Marked(rects[..k], sw, sh, dw, dh, margin, i, j) || Marks(rects[k], sw, sh, dw, dh, margin, i, j)
  {
  }

  /** What the masked comparison returns for a previous frame of the same size. */
  ghost predicate IsMaskedDiff(prev: Img, cur: Img, mask: seq<bool>, dirty: seq<bool>)
    requires prev.Valid() && cur.Valid() && SameSize(prev, cur)
  {
    var tx := TilesFor(cur.w);
    |dirty| == |mask| && forall i, j :: TileBit(dirty, tx, i, j) <==> TileBit(mask, tx, i, j) && TileChanged(prev, cur, i, j)
  }

  method DiffTilesMasked(prev: Option<Img>, cur: Img, mask: seq<bool>) returns (dirty: seq<bool>)
    requires cur.Valid() && (prev.Some? ==> prev.value.Valid())
    ensures |dirty| == TilesFor(cur.w) * TilesFor(cur.h)
    ensures if prev.Some? && SameSize(prev.value, cur) && |mask| == |dirty|
            then IsMaskedDiff(prev.value, cur, mask, dirty)
            else forall k :: 0 <= k < |dirty| ==> dirty[k]
  {
    var tx, ty := TilesFor(cur.w), TilesFor(cur.h);
    if prev.None? || !SameSize(prev.value, cur) || |mask| != tx * ty {
      dirty := seq(tx * ty, _ => true);
      return;
    }
    dirty := seq(tx * ty, _ => false);
    var j := 0;
    while j < ty
      invariant 0 <= j <= ty && |dirty| == tx * ty
      invariant MaskedUpTo(prev.value, cur, mask, dirty, 0, j)
    {
      var i := 0;
      while i < tx
        invariant 0 <= i <= tx && |dirty| == tx * ty
        invariant MaskedUpTo(prev.value, cur, mask, dirty, i, j)
      {
        MaskedStep(prev.value, cur, mask, dirty, i, j);
        if mask[TileAt(i, j, tx, ty)] {
          var changed := CompareTile(prev.value, cur, i, j);
          if changed {
            dirty := dirty[TileAt(i, j, tx, ty) := true];
          }
        }
        i := i + 1;
      }
      MaskedRowDone(prev.value, cur, mask, dirty, j);
      j := j + 1;
    }
    MaskedDone(prev.value, cur, mask, dirty);
  }

  ghost predicate MaskedUpTo(prev: Img, cur: Img, mask: seq<bool>, dirty: seq<bool>, i: int, j: int)
    requires prev.Valid() && cur.Valid() && SameSize(prev, cur)
  {
    forall i', j' :: TileBit(dirty, TilesFor(cur.w), i', j') <==>
                     (j' < j || (j' == j && i' < i)) && TileBit(mask, TilesFor(cur.w), i', j') && TileChanged(prev, cur, i', j')
  }

  lemma MaskedStep(prev: Img, cur: Img, mask: seq<bool>, dirty: seq<bool>, i: int, j: int)
    requires prev.Valid() && cur.Valid() && SameSize(prev, cur)
    requires 0 <= i < TilesFor(cur.w) && 0 <= j < TilesFor(cur.h)
    requires |mask| == |dirty| == TilesFor(cur.w) * TilesFor(cur.h)
    requires MaskedUpTo(prev, cur, mask, dirty, i, j)
    ensures var k := TileAt(i, j, TilesFor(cur.w), TilesFor(cur.h));
            MaskedUpTo(prev, cur, mask, if mask[k] && TileChanged(prev, cur, i, j) then dirty[k := true] else dirty, i + 1, j)
  {
    SetBit(dirty, TilesFor(cur.w), TilesFor(cur.h), i, j);
  }

  lemma MaskedRowDone(prev: Img, cur: Img, mask: seq<bool>, dirty: seq<bool>, j: int)
    requires prev.Valid() && cur.Valid() && SameSize(prev, cur)
    requires MaskedUpTo(prev, cur, mask, dirty, TilesFor(cur.w), j)
    ensures MaskedUpTo(prev, cur, mask, dirty, 0, j + 1)
  {
  }

  lemma MaskedDone(prev: Img, cur: Img, mask: seq<bool>, dirty: seq<bool>)
    requires prev.Valid() && cur.Valid() && SameSize(prev, cur)
    requires |mask| == |dirty| == TilesFor(cur.w) * TilesFor(cur.h)
    requires MaskedUpTo(prev, cur, mask, dirty, 0, TilesFor(cur.h))
    ensures IsMaskedDiff(prev, cur, mask, dirty)
  {
  }

  /** Margin used for a frame of size dw x dh made from a srcW x srcH source. */
  function MarginFor(dw: int, dh: int, srcW: int, srcH: int): int {
    if dw != srcW || dh != srcH then SCALE_MARGIN else 0
  }

  /** diffFrame's result: the plain diff when nothing is hinted or there is no previous
      frame, otherwise the diff restricted to the hinted tiles. */
  ghost predicate IsFrameDiff(prev: Option<Img>, cur: Img, h: SrcHint, srcW: int, srcH: int, dirty: seq<bool>)
    requires cur.Valid() && (prev.Some? ==> prev.value.Valid())
  {
    if !h.ok || prev.None? || !SameSize(prev.value, cur) then IsDiff(prev, cur, dirty)
    else exists mask :: IsHintMask(h.rects, srcW, srcH, cur.w, cur.h, MarginFor(cur.w, cur.h, srcW, srcH), mask)
                        && IsMaskedDiff(prev.value, cur, mask, dirty)
  }

  method DiffFrame(prev: Option<Img>, cur: Img, h: SrcHint, srcW: int, srcH: int) returns (dirty: seq<bool>)
    requires cur.Valid() && (prev.Some? ==> prev.value.Valid())
    ensures IsFrameDiff(prev, cur, h, srcW, srcH, dirty)
  {
    if !h.ok || prev.None? {
      dirty := DiffTiles(prev, cur);
      return;
    }
    var mask := HintTiles(h.rects, srcW, srcH, cur.w, cur.h, MarginFor(cur.w, cur.h, srcW, srcH));
    dirty := DiffTilesMasked(prev, cur, mask);
  }

  // ---- when a hinted diff is the plain diff ----

  /** Every changed tile carries a hint flag. */
  ghost predicate ChangesAreMarked(prev: Img, cur: Img, h: SrcHint, srcW: int, srcH: int)
    requires prev.Valid() && cur.Valid() && SameSize(prev, cur)
    requires srcW > 0 && srcH > 0
  {
    forall x, y :: !AgreeAt(prev, cur, x, y) ==>
                     Marked(h.rects, srcW, srcH, cur.w, cur.h, MarginFor(cur.w, cur.h, srcW, srcH), x / TILE, y / TILE)
  }

  /** The hinted diff equals the plain diff exactly when every changed tile is hinted. */
  lemma HintedDiffExact(prev: Img, cur: Img, h: SrcHint, srcW: int, srcH: int, dirty: seq<bool>)
    requires prev.Valid() && cur.Valid() && SameSize(prev, cur) && srcW > 0 && srcH > 0
    requires h.ok && IsFrameDiff(Some(prev), cur, h, srcW, srcH, dirty)
    ensures IsDiff(Some(prev), cur, dirty) <==> ChangesAreMarked(prev, cur, h, srcW, srcH)
  {
  }

  /** A destination pixel is inside the box of every source rectangle that its footprint meets. */
  lemma FootprintInBox(r: Rect, sw: int, sh: int, dw: int, dh: int, margin: int, dx: int, dy: int, sx: int, sy: int)
    requires sw > 0 && sh > 0 && 0 <= dx < dw && 0 <= dy < dh && margin >= 0
    requires Axis.First(sw, dw, dx) <= sx < Axis.End(sw, dw, dx)
    requires Axis.First(sh, dh, dy) <= sy < Axis.End(sh, dh, dy)
    requires 0 <= r.x0 && 0 <= r.y0 && r.Has(sx, sy)
    ensures DstBox(r, sw, sh, dw, dh, margin).Has(dx, dy)
  {
    Axis.Footprint(sw, dw, dx, sx, r.x0, r.x1);
    Axis.Footprint(sh, dh, dy, sy, r.y0, r.y1);
  }

  /** Likewise for the tile of that pixel and the hint's flags. */
  lemma FootprintIsMarked(rects: seq<Rect>, sw: int, sh: int, dw: int, dh: int, margin: int, dx: int, dy: int, sx: int, sy: int)
    requires sw > 0 && sh > 0 && 0 <= dx < dw && 0 <= dy < dh && margin >= 0
    requires Axis.First(sw, dw, dx) <= sx < Axis.End(sw, dw, dx)
    requires Axis.First(sh, dh, dy) <= sy < Axis.End(sh, dh, dy)
    requires InSome(rects, sx, sy)
    ensures Marked(rects, sw, sh, dw, dh, margin, dx / TILE, dy / TILE)
  {
    var k :| 0 <= k < |rects| && rects[k].Has(sx, sy);
    Axis.SpanBounds(sw, dw, dx);
    Axis.SpanBounds(sh, dh, dy);
    var c := rects[k].Intersect(Rect(0, 0, sw, sh));
    assert c.Has(sx, sy);
    FootprintInBox(c, sw, sh, dw, dh, margin, dx, dy, sx, sy);
    var b := DstBox(c, sw, sh, dw, dh, margin);
    assert TileHits(b, dx / TILE, dy / TILE);
    assert Marks(rects[k], sw, sh, dw, dh, margin, dx / TILE, dy / TILE);
  }

  /** An unscaled pixel covers itself alone. */
  lemma IdentityFootprint(n: int, i: int)
    requires 0 <= i < n
    ensures Axis.First(n, n, i) == i && Axis.End(n, n, i) == i + 1
  {
    Axis.DivAtLeast(i * n, n, i);
    Axis.MulLess(i, i + 1, n);
    Axis.DivBelow(i * n, n, i + 1);
    Axis.Distribute(i, 1, n);
    Axis.DivAtLeast(i * n + n + n - 1, n, i + 1);
    Axis.Distribute(i + 1, 1, n);
    Axis.DivBelow(i * n + n + n - 1, n, i + 2);
  }

  /** Unscaled frames: if the two captures agree outside the hint, the hinted diff is the
      plain diff. */
  lemma UnscaledHintIsExact(prev: Img, cur: Img, h: SrcHint, dirty: seq<bool>)
    requires h.ok && AgreeOutside(prev, cur, h.rects) && cur.w > 0 && cur.h > 0
    requires IsFrameDiff(Some(prev), cur, h, cur.w, cur.h, dirty)
    ensures IsDiff(Some(prev), cur, dirty)
  {
    forall x, y | !AgreeAt(prev, cur, x, y)
      ensures Marked(h.rects, cur.w, cur.h, cur.w, cur.h, 0, x / TILE, y / TILE)
    {
      IdentityFootprint(cur.w, x);
      IdentityFootprint(cur.h, y);
      FootprintIsMarked(h.rects, cur.w, cur.h, cur.w, cur.h, 0, x, y, x, y);
    }
    HintedDiffExact(prev, cur, h, cur.w, cur.h, dirty);
  }

  // ---- rectangle lists and masks ----

  lemma InConcat(a: seq<Rect>, b: seq<Rect>, x: int, y: int)
    ensures InSome(a + b, x, y) <==> InSome(a, x, y) || InSome(b, x, y)
  {
    if InSome(a, x, y) {
      var k :| 0 <= k < |a| && a[k].Has(x, y);
      assert (a + b)[k].Has(x, y);
    }
    if InSome(b, x, y) {
      var k :| 0 <= k < |b| && b[k].Has(x, y);
      assert (a + b)[|a| + k].Has(x, y);
    }
  }

  ghost function Grid(tx: nat, ty: nat, p: (int, int) -> bool): seq<bool> {
    seq(tx * ty, k requires 0 <= k < tx * ty => if tx == 0 then false else p(k % tx, k / tx))
  }

  lemma GridBit(tx: nat, ty: nat, p: (int, int) -> bool)
    ensures forall i, j :: TileBit(Grid(tx, ty, p), tx, i, j) <==> 0 <= i < tx && 0 <= j < ty && p(i, j)
  {
    forall i, j
      ensures TileBit(Grid(tx, ty, p), tx, i, j) <==> 0 <= i < tx && 0 <= j < ty && p(i, j)
    {
      if 0 <= i < tx && 0 <= j {
        MulMono(ty, j, tx);
        if j < ty {
          TileIndex(i, j, tx, ty);
          var i', j' := TileOfIndex(j * tx + i, tx, ty);
          TileIndexInj(i, j, (j * tx + i) % tx, (j * tx + i) / tx, tx);
        }
      }
    }
  }

  lemma EmptyFrameDiff(prev: Img, cur: Img, dirty: seq<bool>, h: SrcHint)
    requires prev.Valid() && cur.Valid() && SameSize(prev, cur) && (cur.w == 0 || cur.h == 0)
    requires IsFrameDiff(Some(prev), cur, h, cur.w, cur.h, dirty)
    ensures IsDiff(Some(prev), cur, dirty)
  {
  }
}
