/** The incremental scaler: it recomputes dirty regions only, and the result is the full scale. */
module Scaler {
  import opened Geometry
  import opened Raster
  import opened Tiles
  import opened Merge
  import opened Hint
  import opened Scale
  import A = Axis
  import Band = ScaleBand

  function TargetWidth(maxWidth: int): int {
    if maxWidth <= 0 then DEFAULT_MAX_WIDTH else maxWidth
  }

  function TargetHeight(src: Img, maxWidth: int): int
    requires src.w > 0
  {
    Max(src.h * TargetWidth(maxWidth) / src.w, 1)
  }

  predicate Shrinks(src: Img, maxWidth: int) {
    src.w > TargetWidth(maxWidth) && src.w != 0 && src.h != 0
  }

  /** A fresh, stateless scale of the whole frame. */
  ghost function FullScale(src: Img, maxWidth: int): Img
    requires src.Valid()
  {
    if Shrinks(src, maxWidth) then ScaledImg(src, TargetWidth(maxWidth), TargetHeight(src, maxWidth)) else src
  }

  /** Destination pixel (dx, dy) depends on a changed source pixel. */
  ghost predicate Touched(prev: Img, cur: Img, dw: int, dh: int, dx: int, dy: int)
    requires prev.Valid() && cur.Valid() && SameSize(prev, cur) && dw > 0 && dh > 0
  {
    exists x, y :: A.First(cur.w, dw, dx) <= x < A.End(cur.w, dw, dx) && A.First(cur.h, dh, dy) <= y < A.End(cur.h, dh, dy)
                   && !AgreeAt(prev, cur, x, y)
  }

  lemma BoxOrdered(a: int, b: int, s: int, d: int, margin: int)
    requires s > 0 && d > 0 && 0 <= a <= b <= s && 0 <= margin
    ensures 0 <= Max(a * d / s - margin, 0) <= Min((b * d + s - 1) / s + margin, d) <= d
  {
    MulMono(a, b, d);
    MulMono(a, s, d);
    QuotientsOrdered(a * d, b * d, s, d);
  }

  lemma QuotientsOrdered(m: int, n: int, s: int, d: int)
    requires s > 0 && 0 <= d && m <= n && m <= s * d && 0 <= n
    ensures m / s <= d && m / s <= (n + s - 1) / s && 0 <= (n + s - 1) / s
  {
    A.DivBelow(m, s, d + 1);
    A.DivFloor(m, s);
    A.DivAtLeast(n + s - 1, s, m / s);
    A.DivAtLeast(n + s - 1, s, 0);
  }

  // ---- what a call computes, whatever the hint ----

  /** The previous source and the output made from it. */
  datatype Cache = Cache(src: Img, dst: Img)

  ghost predicate CacheOK(c: Option<Cache>) {
    c.Some? ==> c.value.src.Valid() && c.value.dst.Valid() && c.value.src.w > 0 && c.value.src.h > 0 && c.value.dst.w > 0 && c.value.dst.h > 0
  }

  /** The cached output is the full scale of the cached source. */
  ghost predicate CacheTrue(c: Option<Cache>)
    requires CacheOK(c)
  {
    c.Some? ==> c.value.dst == ScaledImg(c.value.src, c.value.dst.w, c.value.dst.h)
  }

  /** The cache serves this call: same source size, same output size. */
  predicate Uses(c: Option<Cache>, src: Img, maxWidth: int) {
    && c.Some? && Shrinks(src, maxWidth) && SameSize(c.value.src, src)
    && c.value.dst.w == TargetWidth(maxWidth) && c.value.dst.h == TargetHeight(src, maxWidth)
  }

  /** What the call leaves in the cache. */
  function NextCache(src: Img, maxWidth: int, dst: Img): Option<Cache> {
    if Shrinks(src, maxWidth) then Some(Cache(src, dst)) else None
  }

  /** Source tiles taken for changed: the hinted ones, or the ones that differ. */
  ghost predicate IsSrcMask(prev: Img, cur: Img, hint: SrcHint, mask: seq<bool>)
    requires prev.Valid() && cur.Valid() && SameSize(prev, cur)
  {
    if hint.ok then IsHintMask(hint.rects, cur.w, cur.h, cur.w, cur.h, 0, mask) else IsDiff(Some(prev), cur, mask)
  }

  function Flags(mask: seq<bool>): nat {
    if mask == [] then 0 else Flags(mask[..|mask| - 1]) + Bit(mask[|mask| - 1])
  }

  /** Few enough tiles to patch the old output. */
  predicate FewFlags(mask: seq<bool>, w: nat, h: nat) {
    Flags(mask) as real <= 0.6 * (TilesFor(w) * TilesFor(h)) as real
  }

  /** The destination box of a single source pixel. */
  function UnitBox(x: int, y: int, sw: int, sh: int, dw: int, dh: int): Rect
    requires sw > 0 && sh > 0
  {
    DstBox(Rect(x, y, x + 1, y + 1), sw, sh, dw, dh, SCALE_MARGIN)
  }

  /** The pixel lies in the box of some pixel of a flagged tile. */
  ghost predicate Recomputed(mask: seq<bool>, sw: nat, sh: nat, dw: int, dh: int, dx: int, dy: int)
    requires sw > 0 && sh > 0
  {
    exists x, y :: DirtyAt(mask, sw, sh, x, y) && UnitBox(x, y, sw, sh, dw, dh).Has(dx, dy)
  }

  /** The old output with the recomputed pixels replaced. */
  ghost predicate IsPatch(c: Cache, src: Img, mask: seq<bool>, dst: Img)
    requires c.dst.Valid() && c.dst.w > 0 && c.dst.h > 0 && src.Valid() && src.w > 0 && src.h > 0
  {
    && dst.Valid() && SameSize(dst, c.dst)
    && forall x, y :: 0 <= x < dst.w && 0 <= y < dst.h ==>
                        dst.At(x, y) == if Recomputed(mask, src.w, src.h, dst.w, dst.h, x, y) then ScaledPixel(src, dst.w, dst.h, x, y) else c.dst.At(x, y)
  }

  ghost predicate IsScale(c: Option<Cache>, src: Img, maxWidth: int, hint: SrcHint, dst: Img)
    requires CacheOK(c) && src.Valid()
  {
    if !Uses(c, src, maxWidth) then dst == FullScale(src, maxWidth)
    else exists mask :: IsSrcMask(c.value.src, src, hint, mask)
                        && if FewFlags(mask, src.w, src.h) then IsPatch(c.value, src, mask, dst) else dst == FullScale(src, maxWidth)
  }

  // ---- when that is the fresh full scale ----

  /** Every destination pixel that changed is recomputed, or all of them are. */
  ghost predicate Refreshed(prev: Img, src: Img, mask: seq<bool>, dw: int, dh: int)
    requires CanScale(prev, dw, dh) && CanScale(src, dw, dh)
  {
    FewFlags(mask, src.w, src.h) ==>
      forall x, y :: 0 <= x < dw && 0 <= y < dh ==>
                       Recomputed(mask, src.w, src.h, dw, dh, x, y) || ScaledPixel(prev, dw, dh, x, y) == ScaledPixel(src, dw, dh, x, y)
  }

  ghost predicate StaleFree(c: Option<Cache>, src: Img, maxWidth: int, hint: SrcHint)
    requires CacheOK(c) && src.Valid()
  {
    Uses(c, src, maxWidth) ==>
      forall mask :: IsSrcMask(c.value.src, src, hint, mask) ==> Refreshed(c.value.src, src, mask, c.value.dst.w, c.value.dst.h)
  }

  lemma SrcMaskUnique(prev: Img, cur: Img, hint: SrcHint, a: seq<bool>, b: seq<bool>)
    requires prev.Valid() && cur.Valid() && SameSize(prev, cur) && IsSrcMask(prev, cur, hint, a) && IsSrcMask(prev, cur, hint, b)
    ensures a == b
  {
    if hint.ok {
      MaskExt(a, b, TilesFor(cur.w), TilesFor(cur.h));
    } else {
      DiffIsUnique(Some(prev), cur, a, b);
    }
  }

  lemma PatchExactly(c: Cache, src: Img, mask: seq<bool>, dst: Img)
    requires CacheOK(Some(c)) && CacheTrue(Some(c)) && src.Valid() && SameSize(c.src, src)
    requires IsPatch(c, src, mask, dst) && FewFlags(mask, src.w, src.h)
    ensures dst == ScaledImg(src, dst.w, dst.h) <==> Refreshed(c.src, src, mask, dst.w, dst.h)
  {
    hide ScaledPixel, Recomputed;
    if Refreshed(c.src, src, mask, dst.w, dst.h) {
      IsScaledImg(dst, src, dst.w, dst.h);
    }
  }

  /** From a true cache, the result is the fresh full scale if and only if no changed pixel
      is left out; then the cache stays true. */
  lemma ScaleExactly(c: Option<Cache>, src: Img, maxWidth: int, hint: SrcHint, dst: Img)
    requires CacheOK(c) && CacheTrue(c) && src.Valid() && IsScale(c, src, maxWidth, hint, dst)
    ensures dst == FullScale(src, maxWidth) <==> StaleFree(c, src, maxWidth, hint)
  {
    if Uses(c, src, maxWidth) {
      hide IsPatch, Refreshed, FewFlags, ScaledImg, IsSrcMask;
      var mask :| IsSrcMask(c.value.src, src, hint, mask)
                  && if FewFlags(mask, src.w, src.h) then IsPatch(c.value, src, mask, dst) else dst == FullScale(src, maxWidth);
      forall m | IsSrcMask(c.value.src, src, hint, m)
        ensures m == mask
      {
        SrcMaskUnique(c.value.src, src, hint, m, mask);
      }
      if FewFlags(mask, src.w, src.h) {
        PatchSize(c.value, src, mask, dst);
        PatchExactly(c.value, src, mask, dst);
      } else {
        ManyFlags(c.value.src, src, mask, c.value.dst.w, c.value.dst.h);
      }
    }
  }

  lemma PatchSize(c: Cache, src: Img, mask: seq<bool>, dst: Img)
    requires CacheOK(Some(c)) && src.Valid() && src.w > 0 && src.h > 0 && IsPatch(c, src, mask, dst)
    ensures dst.Valid() && SameSize(dst, c.dst)
  {
  }

  lemma ManyFlags(prev: Img, src: Img, mask: seq<bool>, dw: int, dh: int)
    requires CanScale(prev, dw, dh) && CanScale(src, dw, dh) && !FewFlags(mask, src.w, src.h)
    ensures Refreshed(prev, src, mask, dw, dh)
  {
  }

  /** A patch or a full scale: the result is an image either way. */
  lemma IsScaleOK(c: Option<Cache>, src: Img, maxWidth: int, hint: SrcHint, dst: Img)
    requires CacheOK(c) && src.Valid() && IsScale(c, src, maxWidth, hint, dst)
    ensures dst.Valid() && SameSize(dst, FullScale(src, maxWidth)) && CacheOK(NextCache(src, maxWidth, dst))
  {
    FullScaleIsValid(src, maxWidth);
    FullScaleSize(src, maxWidth);
    hide FullScale, IsSrcMask;
  }

  lemma FullScaleSize(src: Img, maxWidth: int)
    requires src.Valid()
    ensures FullScale(src, maxWidth).w == (if Shrinks(src, maxWidth) then TargetWidth(maxWidth) else src.w)
    ensures FullScale(src, maxWidth).h == (if Shrinks(src, maxWidth) then TargetHeight(src, maxWidth) else src.h)
  {
  }

  /** Flags at source resolution that cover every changed pixel. */
  ghost predicate CoversChanges(prev: Img, cur: Img, dirty: seq<bool>)
    requires prev.Valid() && cur.Valid() && SameSize(prev, cur)
  {
    |dirty| == TilesFor(cur.w) * TilesFor(cur.h)
    && forall x, y :: !AgreeAt(prev, cur, x, y) ==> DirtyAt(dirty, cur.w, cur.h, x, y)
  }

  /** Every changed source pixel lies in a tile some hint rectangle reaches. */
  ghost predicate FlagsChanges(prev: Img, cur: Img, rects: seq<Rect>)
    requires prev.Valid() && cur.Valid() && SameSize(prev, cur) && cur.w > 0 && cur.h > 0
  {
    forall x, y :: !AgreeAt(prev, cur, x, y) ==> Marked(rects, cur.w, cur.h, cur.w, cur.h, 0, x / TILE, y / TILE)
  }

  /** The hint, where it is used, flags every tile that changed since the cached source. */
  ghost predicate HintSound(c: Option<Cache>, src: Img, maxWidth: int, hint: SrcHint)
    requires CacheOK(c) && src.Valid()
  {
    Uses(c, src, maxWidth) && hint.ok ==> FlagsChanges(c.value.src, src, hint.rects)
  }

  lemma AgreeOutsideFlags(prev: Img, cur: Img, rects: seq<Rect>)
    requires AgreeOutside(prev, cur, rects) && cur.w > 0 && cur.h > 0
    ensures FlagsChanges(prev, cur, rects)
  {
    forall x, y | !AgreeAt(prev, cur, x, y)
      ensures Marked(rects, cur.w, cur.h, cur.w, cur.h, 0, x / TILE, y / TILE)
    {
      IdentityFootprint(cur.w, x);
      IdentityFootprint(cur.h, y);
      FootprintIsMarked(rects, cur.w, cur.h, cur.w, cur.h, 0, x, y, x, y);
    }
  }

  lemma MaskCovers(prev: Img, cur: Img, hint: SrcHint, mask: seq<bool>)
    requires prev.Valid() && cur.Valid() && SameSize(prev, cur) && cur.w > 0 && cur.h > 0
    requires IsSrcMask(prev, cur, hint, mask) && (hint.ok ==> FlagsChanges(prev, cur, hint.rects))
    ensures CoversChanges(prev, cur, mask)
  {
    if !hint.ok {
      forall x, y | !AgreeAt(prev, cur, x, y)
        ensures DirtyAt(mask, cur.w, cur.h, x, y)
      {
        DiffCovers(prev, cur, mask, x, y);
      }
    }
  }

  /** With covering flags a touched destination pixel is recomputed. */
  lemma TouchedIsRecomputed(prev: Img, cur: Img, dw: int, dh: int, mask: seq<bool>, dx: int, dy: int)
    requires prev.Valid() && cur.Valid() && SameSize(prev, cur) && cur.w > 0 && cur.h > 0 && CoversChanges(prev, cur, mask)
    requires 0 <= dx < dw && 0 <= dy < dh && Touched(prev, cur, dw, dh, dx, dy)
    ensures Recomputed(mask, cur.w, cur.h, dw, dh, dx, dy)
  {
    var x, y :| A.First(cur.w, dw, dx) <= x < A.End(cur.w, dw, dx) && A.First(cur.h, dh, dy) <= y < A.End(cur.h, dh, dy)
                && !AgreeAt(prev, cur, x, y);
    FootprintInBox(Rect(x, y, x + 1, y + 1), cur.w, cur.h, dw, dh, SCALE_MARGIN, dx, dy, x, y);
    assert UnitBox(x, y, cur.w, cur.h, dw, dh).Has(dx, dy);
  }

  /** With covering flags nothing is left out. */
  lemma CoveredIsRefreshed(prev: Img, cur: Img, mask: seq<bool>, dw: int, dh: int)
    requires CanScale(prev, dw, dh) && CanScale(cur, dw, dh) && SameSize(prev, cur) && CoversChanges(prev, cur, mask)
    ensures Refreshed(prev, cur, mask, dw, dh)
  {
    hide ScaledPixel, CoversChanges, A.First, A.End, Recomputed;
    forall x, y | 0 <= x < dw && 0 <= y < dh
      ensures Recomputed(mask, cur.w, cur.h, dw, dh, x, y) || ScaledPixel(prev, dw, dh, x, y) == ScaledPixel(cur, dw, dh, x, y)
    {
      if Touched(prev, cur, dw, dh, x, y) {
        TouchedIsRecomputed(prev, cur, dw, dh, mask, x, y);
      } else {
        ScaledPixelLocal(prev, cur, dw, dh, x, y);
      }
    }
  }

  // ---- the code ----

  method CountTrue(dirty: seq<bool>) returns (n: nat)
    ensures n == Flags(dirty)
  {
    n := 0;
    var k := 0;
    while k < |dirty|
      invariant 0 <= k <= |dirty| && n == Flags(dirty[..k])
    {
      assert dirty[..k + 1][..k] == dirty[..k];
      if dirty[k] {
        n := n + 1;
      }
      k := k + 1;
    }
    assert dirty[..k] == dirty;
  }

  /** Regions of the destination to recompute, or not ok when too much is flagged. */
  method DirtyRegions(prev: Img, cur: Img, dw: int, dh: int, hint: SrcHint)
    returns (regs: seq<Rect>, ok: bool)
    requires prev.Valid() && cur.Valid() && SameSize(prev, cur) && cur.w > 0 && cur.h > 0 && dw > 0 && dh > 0
    ensures exists mask :: IsSrcMask(prev, cur, hint, mask) && ok == FewFlags(mask, cur.w, cur.h)
                           && (ok ==> AreRegions(regs, mask, cur.w, cur.h, dw, dh))
  {
    var sw, sh := cur.w, cur.h;
    var dirty;
    if hint.ok {
      dirty := HintTiles(hint.rects, sw, sh, sw, sh, 0);
    } else {
      dirty := DiffTiles(Some(prev), cur);
    }
    assert IsSrcMask(prev, cur, hint, dirty);
    var nd := CountTrue(dirty);
    if nd as real > 0.6 * (TilesFor(sw) * TilesFor(sh)) as real {
      return [], false;
    }
    var merged := MergeDirty(dirty, TilesFor(sw), TilesFor(sh), sw, sh);
    regs, ok := [], true;
    var k := 0;
    while k < |merged|
      invariant 0 <= k <= |merged|
      invariant AreBoxes(regs, merged[..k], sw, sh, dw, dh)
    {
      var b := DstBox(merged[k], sw, sh, dw, dh, SCALE_MARGIN);
      BoxOrdered(merged[k].x0, merged[k].x1, sw, dw, SCALE_MARGIN);
      BoxOrdered(merged[k].y0, merged[k].y1, sh, dh, SCALE_MARGIN);
      regs := regs + [Corners(b.x0, b.y0, b.x1, b.y1)];
      k := k + 1;
    }
    assert merged[..k] == merged;
    forall dx, dy
      ensures InSome(regs, dx, dy) <==> Recomputed(dirty, sw, sh, dw, dh, dx, dy)
    {
      RegionsAreRecomputed(dirty, sw, sh, dw, dh, merged, regs, dx, dy);
    }
  }

  /** Regions on the canvas that hold exactly the recomputed pixels. */
  ghost predicate AreRegions(regs: seq<Rect>, mask: seq<bool>, sw: nat, sh: nat, dw: int, dh: int)
    requires sw > 0 && sh > 0
  {
    && (forall k :: 0 <= k < |regs| ==> regs[k].Within(dw, dh))
    && forall dx, dy :: InSome(regs, dx, dy) <==> Recomputed(mask, sw, sh, dw, dh, dx, dy)
  }

  ghost predicate AreBoxes(regs: seq<Rect>, rects: seq<Rect>, sw: int, sh: int, dw: int, dh: int)
    requires sw > 0 && sh > 0
  {
    |regs| == |rects|
    && forall k :: 0 <= k < |regs| ==> regs[k] == DstBox(rects[k], sw, sh, dw, dh, SCALE_MARGIN) && regs[k].Within(dw, dh)
  }

  /** Where source cell a begins and where cell b - 1 ends, in whole destinations. */
  function BoxStart(a: int, s: int, d: int): int
    requires s > 0
  {
    a * d / s
  }

  function BoxEnd(b: int, s: int, d: int): int
    requires s > 0
  {
    (b * d + s - 1) / s
  }

  /** Intervals [f(x), g(x + 1)) that follow each other without a gap: whatever their union
      holds, one of them holds. */
  lemma {:induction false} OneOf(f: int -> int, g: int -> int, a: int, b: int, t: int) returns (x: int)
    requires a < b && f(a) <= t < g(b) && forall y :: f(y) <= g(y)
    ensures a <= x < b && f(x) <= t < g(x + 1)
    decreases b - a
  {
    if b == a + 1 || t < g(a + 1) {
      x := a;
    } else {
      assert f(a + 1) <= g(a + 1);
      x := OneOf(f, g, a + 1, b, t);
    }
  }

  /** One axis of a box: every destination it holds is held by the box of one cell. */
  lemma CellOfBox(a: int, b: int, s: int, d: int, t: int) returns (x: int)
    requires s > 0 && d > 0 && a < b && BoxStart(a, s, d) - SCALE_MARGIN <= t < BoxEnd(b, s, d) + SCALE_MARGIN
    ensures a <= x < b && BoxStart(x, s, d) - SCALE_MARGIN <= t < BoxEnd(x + 1, s, d) + SCALE_MARGIN
  {
    hide BoxStart, BoxEnd;
    var f, g := (y: int) => BoxStart(y, s, d) - SCALE_MARGIN, (y: int) => BoxEnd(y, s, d) + SCALE_MARGIN;
    forall y
      ensures f(y) <= g(y)
    {
      StartBeforeEnd(y, s, d);
    }
    x := OneOf(f, g, a, b, t);
  }

  lemma StartBeforeEnd(a: int, s: int, d: int)
    requires s > 0
    ensures BoxStart(a, s, d) <= BoxEnd(a, s, d)
  {
    QuotientMono(a * d, a * d + s - 1, s);
  }

  lemma CellInBox(a: int, b: int, s: int, d: int, x: int)
    requires s > 0 && d > 0 && a <= x < b
    ensures BoxStart(a, s, d) <= BoxStart(x, s, d) && BoxEnd(x + 1, s, d) <= BoxEnd(b, s, d)
  {
    MulMono(a, x, d);
    MulMono(x + 1, b, d);
    QuotientMono(a * d, x * d, s);
    QuotientMono((x + 1) * d + s - 1, b * d + s - 1, s);
  }

  lemma QuotientMono(m: int, n: int, s: int)
    requires s > 0 && m <= n
    ensures m / s <= n / s
  {
    A.DivFloor(m, s);
    A.DivAtLeast(n, s, m / s);
  }

  /** The box of a rectangle is the union of the boxes of its pixels. */
  lemma BoxIsUnion(r: Rect, sw: int, sh: int, dw: int, dh: int, dx: int, dy: int)
    requires sw > 0 && sh > 0 && dw > 0 && dh > 0 && !r.Empty()
    ensures DstBox(r, sw, sh, dw, dh, SCALE_MARGIN).Has(dx, dy) <==> exists x, y :: r.Has(x, y) && UnitBox(x, y, sw, sh, dw, dh).Has(dx, dy)
  {
    if DstBox(r, sw, sh, dw, dh, SCALE_MARGIN).Has(dx, dy) {
      var x := CellOfBox(r.x0, r.x1, sw, dw, dx);
      var y := CellOfBox(r.y0, r.y1, sh, dh, dy);
      assert r.Has(x, y) && UnitBox(x, y, sw, sh, dw, dh).Has(dx, dy);
    }
    if x, y :| r.Has(x, y) && UnitBox(x, y, sw, sh, dw, dh).Has(dx, dy) {
      CellInBox(r.x0, r.x1, sw, dw, x);
      CellInBox(r.y0, r.y1, sh, dh, y);
    }
  }

  /** The regions hold exactly the recomputed pixels. */
  lemma RegionsAreRecomputed(mask: seq<bool>, sw: nat, sh: nat, dw: int, dh: int, rects: seq<Rect>, regs: seq<Rect>, dx: int, dy: int)
    requires sw > 0 && sh > 0 && dw > 0 && dh > 0 && IsMerged(mask, sw, sh, rects) && AreBoxes(regs, rects, sw, sh, dw, dh)
    ensures InSome(regs, dx, dy) <==> Recomputed(mask, sw, sh, dw, dh, dx, dy)
  {
    hide DstBox, UnitBox, DirtyAt;
    if InSome(regs, dx, dy) {
      var k :| 0 <= k < |regs| && regs[k].Has(dx, dy);
      BoxIsUnion(rects[k], sw, sh, dw, dh, dx, dy);
      var x, y :| rects[k].Has(x, y) && UnitBox(x, y, sw, sh, dw, dh).Has(dx, dy);
      InsideIsDirty(mask, sw, sh, rects, k, x, y);
    }
    if Recomputed(mask, sw, sh, dw, dh, dx, dy) {
      var x, y :| DirtyAt(mask, sw, sh, x, y) && UnitBox(x, y, sw, sh, dw, dh).Has(dx, dy);
      var k := Covers(mask, sw, sh, rects, x, y);
      BoxIsUnion(rects[k], sw, sh, dw, dh, dx, dy);
      assert regs[k].Has(dx, dy);
    }
  }

  /** The buffer's pixels as an image value. */
  method Freeze(a: array2<Pixel>) returns (img: Img)
    ensures img.Valid() && img.w == a.Length1 && img.h == a.Length0
    ensures forall x, y :: 0 <= x < img.w && 0 <= y < img.h ==> img.At(x, y) == a[y, x]
  {
    var px: seq<seq<Pixel>> := [];
    var y := 0;
    while y < a.Length0
      invariant 0 <= y <= a.Length0 && |px| == y
      invariant forall j :: 0 <= j < y ==> |px[j]| == a.Length1 && forall i :: 0 <= i < a.Length1 ==> px[j][i] == a[j, i]
    {
      var row := seq(a.Length1, i requires 0 <= i < a.Length1 reads a => a[y, i]);
      px := px + [row];
      y := y + 1;
    }
    img := Img(a.Length1, a.Length0, px);
  }

  class FrameScaler {
    var prevSrc: Option<Img>
    var prevDst: Option<Img>
    var ax: Option<A.ScaleAxis>
    var ay: Option<A.ScaleAxis>

    ghost predicate Valid()
      reads this
    {
      && (prevSrc.Some? <==> prevDst.Some?)
      && (ax.Some? <==> ay.Some?)
      && (ax.Some? ==> AxisReady(ax.value) && AxisReady(ay.value))
      && (prevSrc.Some? ==> ax.Some? && prevSrc.value.Valid() && prevDst.value.Valid()
                            && prevSrc.value.w == ax.value.srcN && prevSrc.value.h == ay.value.srcN
                            && prevDst.value.w == ax.value.dstN && prevDst.value.h == ay.value.dstN)
    }

    ghost function Cached(): Option<Cache>
      reads this
    {
      if prevSrc.Some? && prevDst.Some? then Some(Cache(prevSrc.value, prevDst.value)) else None
    }

    static ghost predicate AxisReady(a: A.ScaleAxis) {
      a.srcN > 0 && a.dstN > 0 && a == A.AxisOf(a.srcN, a.dstN)
    }

    constructor ()
      ensures Valid() && Cached() == None
    {
      prevSrc, prevDst, ax, ay := None, None, None, None;
    }

    /** What the call returns and caches, for every hint. From a true cache and with a hint
        that flags the changed tiles it is the fresh full scale, and the cache stays true. */
    method ScaleHinted(src: Img, maxWidth: int, hint: SrcHint, procs: int) returns (dst: Img)
      requires Valid() && src.Valid()
      modifies this
      ensures Valid() && CacheOK(old(Cached())) && CacheOK(Cached())
      ensures IsScale(old(Cached()), src, maxWidth, hint, dst)
      ensures Cached() == NextCache(src, maxWidth, dst)
      ensures CacheTrue(old(Cached())) && HintSound(old(Cached()), src, maxWidth, hint) ==> dst == FullScale(src, maxWidth) && CacheTrue(Cached())
    {
      hide IsPatch, FewFlags, IsSrcMask, AreRegions, A.AxisOf, CacheTrue, HintSound, FullScale, ScaledImg;
      ghost var c := Cached();
      var mw := if maxWidth <= 0 then DEFAULT_MAX_WIDTH else maxWidth;
      var sw, sh := src.w, src.h;
      if sw <= mw || sw == 0 || sh == 0 {
        prevSrc, prevDst := None, None;
        NotShrunk(src, maxWidth);
        return src;
      }
      var dw := mw;
      var dh := Max(sh * mw / sw, 1);
      if ax.None? || ax.value.srcN != sw || ax.value.dstN != dw || ay.value.srcN != sh || ay.value.dstN != dh {
        var nx := A.NewScaleAxis(sw, dw);
        var ny := A.NewScaleAxis(sh, dh);
        ax, ay := Some(nx), Some(ny);
        AxisSize(sw, dw);
        AxisSize(sh, dh);
        prevSrc, prevDst := None, None;
      }
      if prevSrc.Some? && SameSize(prevSrc.value, src) {
        var regs, ok := DirtyRegions(prevSrc.value, src, dw, dh, hint);
        ghost var mask :| IsSrcMask(prevSrc.value, src, hint, mask) && ok == FewFlags(mask, sw, sh)
                          && (ok ==> AreRegions(regs, mask, sw, sh, dw, dh));
        if ok {
          dst := Patch(Cache(prevSrc.value, prevDst.value), src, ax.value, ay.value, regs, procs, mask);
          PatchSize(Cache(prevSrc.value, prevDst.value), src, mask, dst);
          prevSrc, prevDst := Some(src), Some(dst);
          PatchIsFull(c.value, src, maxWidth, hint, dst, mask);
          return;
        }
      }
      dst := Fresh(src, ax.value, ay.value, procs);
      FreshIsFull(src, maxWidth, dst);
      prevSrc, prevDst := Some(src), Some(dst);
    }
  }

  lemma AxisSize(s: int, d: int)
    requires s > 0 && d > 0
    ensures A.AxisOf(s, d).srcN == s && A.AxisOf(s, d).dstN == d
  {
  }

  lemma NotShrunk(src: Img, maxWidth: int)
    requires src.Valid() && !Shrinks(src, maxWidth)
    ensures FullScale(src, maxWidth) == src && CacheTrue(None)
  {
  }

  lemma FreshIsFull(src: Img, maxWidth: int, dst: Img)
    requires src.Valid() && Shrinks(src, maxWidth) && dst == ScaledImg(src, TargetWidth(maxWidth), TargetHeight(src, maxWidth))
    ensures dst == FullScale(src, maxWidth) && dst.Valid() && dst.w == TargetWidth(maxWidth) && dst.h == TargetHeight(src, maxWidth)
    ensures CacheOK(Some(Cache(src, dst))) && CacheTrue(Some(Cache(src, dst)))
  {
    FullScaleIsValid(src, maxWidth);
  }

  lemma PatchIsFull(c: Cache, src: Img, maxWidth: int, hint: SrcHint, dst: Img, mask: seq<bool>)
    requires CacheOK(Some(c)) && src.Valid() && Uses(Some(c), src, maxWidth)
    requires IsSrcMask(c.src, src, hint, mask) && FewFlags(mask, src.w, src.h) && IsPatch(c, src, mask, dst)
    ensures CacheOK(Some(Cache(src, dst)))
    ensures CacheTrue(Some(c)) && HintSound(Some(c), src, maxWidth, hint) ==> dst == FullScale(src, maxWidth) && CacheTrue(Some(Cache(src, dst)))
  {
    PatchSize(c, src, mask, dst);
    if CacheTrue(Some(c)) && HintSound(Some(c), src, maxWidth, hint) {
      hide IsPatch, FewFlags, IsSrcMask, IsMerged, Refreshed;
      MaskCovers(c.src, src, hint, mask);
      CoveredIsRefreshed(c.src, src, mask, dst.w, dst.h);
      PatchExactly(c, src, mask, dst);
    }
  }

  /** From a true cache a sound hint leaves nothing stale. */
  lemma SoundIsStaleFree(c: Option<Cache>, src: Img, maxWidth: int, hint: SrcHint)
    requires CacheOK(c) && src.Valid() && HintSound(c, src, maxWidth, hint)
    ensures StaleFree(c, src, maxWidth, hint)
  {
    if Uses(c, src, maxWidth) {
      var prev, dw, dh := c.value.src, c.value.dst.w, c.value.dst.h;
      forall mask | IsSrcMask(prev, src, hint, mask)
        ensures Refreshed(prev, src, mask, dw, dh)
      {
        MaskCovers(prev, src, hint, mask);
        CoveredIsRefreshed(prev, src, mask, dw, dh);
      }
    }
  }

  lemma IsScaledImg(dst: Img, src: Img, dw: nat, dh: nat)
    requires CanScale(src, dw, dh) && dst.Valid() && dst.w == dw && dst.h == dh
    requires forall x, y :: 0 <= x < dw && 0 <= y < dh ==> dst.At(x, y) == ScaledPixel(src, dw, dh, x, y)
    ensures dst == ScaledImg(src, dw, dh)
  {
    hide ScaledPixel;
    var full := ScaledImg(src, dw, dh);
    assert full.Valid();
    forall x, y
      ensures AgreeAt(dst, full, x, y)
    {
    }
    SamePixels(dst, full);
  }

  method Fresh(src: Img, ax: A.ScaleAxis, ay: A.ScaleAxis, procs: int) returns (dst: Img)
    requires CanScale(src, ax.dstN, ay.dstN) && ax == A.AxisOf(src.w, ax.dstN) && ay == A.AxisOf(src.h, ay.dstN)
    ensures dst == ScaledImg(src, ax.dstN, ay.dstN)
  {
    hide ScaledPixel, A.AxisOf;
    var buf := new Pixel[ay.dstN, ax.dstN]((y, x) => Pixel(0, 0, 0, 0));
    Band.ScaleRegion(buf, src, ax, ay, Rect(0, 0, ax.dstN, ay.dstN), procs);
    dst := Freeze(buf);
    IsScaledImg(dst, src, ax.dstN, ay.dstN);
  }

  /** Copy of the previous output with the regions recomputed. */
  method Patch(c: Cache, src: Img, ax: A.ScaleAxis, ay: A.ScaleAxis, regs: seq<Rect>, procs: int, ghost mask: seq<bool>) returns (dst: Img)
    requires CanScale(src, ax.dstN, ay.dstN) && ax == A.AxisOf(src.w, ax.dstN) && ay == A.AxisOf(src.h, ay.dstN)
    requires c.dst.Valid() && c.dst.w == ax.dstN && c.dst.h == ay.dstN
    requires AreRegions(regs, mask, src.w, src.h, ax.dstN, ay.dstN)
    ensures IsPatch(c, src, mask, dst)
  {
    hide ScaledPixel, A.AxisOf, Recomputed;
    var dw, dh := ax.dstN, ay.dstN;
    var buf := new Pixel[dh, dw]((y, x) requires 0 <= y < dh && 0 <= x < dw => c.dst.px[y][x]);
    var k := 0;
    while k < |regs|
      invariant 0 <= k <= |regs|
      invariant forall y, x :: 0 <= y < dh && 0 <= x < dw ==>
                                 buf[y, x] == if InSome(regs[..k], x, y) then ScaledPixel(src, dw, dh, x, y) else c.dst.px[y][x]
    {
      Band.ScaleRegion(buf, src, ax, ay, regs[k], procs);
      assert regs[..k + 1] == regs[..k] + [regs[k]];
      InAppend(regs[..k], regs[k]);
      k := k + 1;
    }
    assert regs[..k] == regs;
    dst := Freeze(buf);
  }

  lemma InAppend(rs: seq<Rect>, r: Rect)
    ensures forall x, y :: InSome(rs + [r], x, y) <==> InSome(rs, x, y) || r.Has(x, y)
  {
    forall x, y
      ensures InSome(rs + [r], x, y) <==> InSome(rs, x, y) || r.Has(x, y)
    {
      InConcat(rs, [r], x, y);
      assert r.Has(x, y) ==> [r][0].Has(x, y);
    }
  }

  // ---- hinted diff of scaled frames ----

  /** Frames made by the scaler from sources that agree outside the hint: the hinted tile
      diff is exactly the plain tile diff, scaled or not. */
  lemma HintedDiffIsPlainDiff(prevSrc: Img, src: Img, maxWidth: int, h: SrcHint, dirty: seq<bool>)
    requires h.ok && AgreeOutside(prevSrc, src, h.rects) && src.w > 0 && src.h > 0
    requires FullScale(src, maxWidth).Valid() && FullScale(prevSrc, maxWidth).Valid()
    requires IsFrameDiff(Some(FullScale(prevSrc, maxWidth)), FullScale(src, maxWidth), h, src.w, src.h, dirty)
    ensures IsDiff(Some(FullScale(prevSrc, maxWidth)), FullScale(src, maxWidth), dirty)
  {
    var a, b := FullScale(prevSrc, maxWidth), FullScale(src, maxWidth);
    if !Shrinks(src, maxWidth) {
      UnscaledHintIsExact(prevSrc, src, h, dirty);
    } else {
      var dw, dh := TargetWidth(maxWidth), TargetHeight(src, maxWidth);
      forall x, y | !AgreeAt(a, b, x, y)
        ensures Marked(h.rects, src.w, src.h, dw, dh, SCALE_MARGIN, x / TILE, y / TILE)
      {
        if !Touched(prevSrc, src, dw, dh, x, y) {
          ScaledPixelLocal(prevSrc, src, dw, dh, x, y);
        }
        var sx, sy :| A.First(src.w, dw, x) <= sx < A.End(src.w, dw, x) && A.First(src.h, dh, y) <= sy < A.End(src.h, dh, y)
                      && !AgreeAt(prevSrc, src, sx, sy);
        FootprintIsMarked(h.rects, src.w, src.h, dw, dh, SCALE_MARGIN, x, y, sx, sy);
      }
      HintedDiffExact(a, b, h, src.w, src.h, dirty);
    }
  }

  lemma FullScaleIsValid(src: Img, maxWidth: int)
    requires src.Valid()
    ensures FullScale(src, maxWidth).Valid()
  {
  }
}
