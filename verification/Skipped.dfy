/** Layers that skipped hinted captures. A hint speaks only of the change since the capture
    before it; this module says what that costs a layer whose last processed capture is older:
    its scaler may keep old pixels, and its diff may leave changed tiles uncompared. */
module Skipped {
  import opened Geometry
  import opened Raster
  import opened Tiles
  import opened Hint
  import opened Scale
  import opened Scaler
  import opened Weighing
  import A = Axis

  // ---- sizes ----

  predicate ShrinksSize(sw: nat, sh: nat, maxWidth: int) {
    sw > TargetWidth(maxWidth) && sw != 0 && sh != 0
  }

  function FrameW(sw: nat, sh: nat, maxWidth: int): nat {
    if ShrinksSize(sw, sh, maxWidth) then TargetWidth(maxWidth) else sw
  }

  function FrameH(sw: nat, sh: nat, maxWidth: int): nat {
    if ShrinksSize(sw, sh, maxWidth) then Max(sh * TargetWidth(maxWidth) / sw, 1) else sh
  }

  lemma FrameSize(src: Img, maxWidth: int)
    requires src.Valid()
    ensures FullScale(src, maxWidth).Valid()
    ensures FullScale(src, maxWidth).w == FrameW(src.w, src.h, maxWidth) && FullScale(src, maxWidth).h == FrameH(src.w, src.h, maxWidth)
  {
    FullScaleIsValid(src, maxWidth);
    FullScaleSize(src, maxWidth);
  }

  // ---- what the current hint reaches ----

  /** Destination (dx, dy) reads source pixel (x, y). */
  ghost predicate Reads(sw: nat, sh: nat, dw: nat, dh: nat, dx: int, dy: int, x: int, y: int) {
    && 0 <= dx < dw && 0 <= dy < dh
    && A.First(sw, dw, dx) <= x < A.End(sw, dw, dx) && A.First(sh, dh, dy) <= y < A.End(sh, dh, dy)
  }

  /** The scaler recomputes the destination, or everything. */
  ghost predicate Refreshes(hint: seq<Rect>, sw: nat, sh: nat, dw: nat, dh: nat, dx: int, dy: int)
    requires sw > 0 && sh > 0
  {
    forall mask :: IsHintMask(hint, sw, sh, sw, sh, 0, mask) && FewFlags(mask, sw, sh) ==> Recomputed(mask, sw, sh, dw, dh, dx, dy)
  }

  /** A scaled destination is scaled afresh. */
  ghost predicate FreshAt(hint: seq<Rect>, sw: nat, sh: nat, maxWidth: int, dx: int, dy: int)
    requires sw > 0 && sh > 0
  {
    ShrinksSize(sw, sh, maxWidth) ==> Refreshes(hint, sw, sh, FrameW(sw, sh, maxWidth), FrameH(sw, sh, maxWidth), dx, dy)
  }

  /** The destination's tile is compared. */
  ghost predicate MarkedAt(hint: seq<Rect>, sw: nat, sh: nat, maxWidth: int, dx: int, dy: int)
    requires sw > 0 && sh > 0
  {
    var dw, dh := FrameW(sw, sh, maxWidth), FrameH(sw, sh, maxWidth);
    Marked(hint, sw, sh, dw, dh, MarginFor(dw, dh, sw, sh), dx / TILE, dy / TILE)
  }

  /** The skipped rectangles count in the destination: it is one of their pixels, or it is
      scaled from some of them with a weight other than 0. */
  ghost predicate Counts(missed: seq<Rect>, sw: nat, sh: nat, maxWidth: int, dx: int, dy: int)
    requires sw > 0 && sh > 0
  {
    var dw, dh := FrameW(sw, sh, maxWidth), FrameH(sw, sh, maxWidth);
    && 0 <= dx < dw && 0 <= dy < dh
    && if ShrinksSize(sw, sh, maxWidth) then WeightOf(missed, sw, sh, dw, dh, dx, dy) > 0 else InSome(missed, dx, dy)
  }

  /** Enough for a frame that is not compared (a key frame, or one for the video): every
      destination in which skipped pixels count is scaled afresh. */
  ghost predicate KeySafe(missed: seq<Rect>, hint: seq<Rect>, sw: nat, sh: nat, maxWidth: int) {
    sw > 0 && sh > 0 ==> forall dx, dy :: Counts(missed, sw, sh, maxWidth, dx, dy) ==> FreshAt(hint, sw, sh, maxWidth, dx, dy)
  }

  /** The tiles of those destinations are compared. */
  ghost predicate MarkSafe(missed: seq<Rect>, hint: seq<Rect>, sw: nat, sh: nat, maxWidth: int) {
    sw > 0 && sh > 0 ==> forall dx, dy :: Counts(missed, sw, sh, maxWidth, dx, dy) ==> MarkedAt(hint, sw, sh, maxWidth, dx, dy)
  }

  ghost predicate SkipSafe(missed: seq<Rect>, hint: seq<Rect>, sw: nat, sh: nat, maxWidth: int) {
    KeySafe(missed, hint, sw, sh, maxWidth) && MarkSafe(missed, hint, sw, sh, maxWidth)
  }

  /** Pixels of the current hint are always reached. */
  lemma HintReachesItself(hint: seq<Rect>, sw: nat, sh: nat, maxWidth: int, dx: int, dy: int, x: int, y: int)
    requires sw > 0 && sh > 0 && InSome(hint, x, y)
    requires Reads(sw, sh, FrameW(sw, sh, maxWidth), FrameH(sw, sh, maxWidth), dx, dy, x, y)
    ensures FreshAt(hint, sw, sh, maxWidth, dx, dy) && MarkedAt(hint, sw, sh, maxWidth, dx, dy)
  {
    var dw, dh := FrameW(sw, sh, maxWidth), FrameH(sw, sh, maxWidth);
    A.SpanBounds(sw, dw, dx);
    A.SpanBounds(sh, dh, dy);
    FootprintIsMarked(hint, sw, sh, dw, dh, MarginFor(dw, dh, sw, sh), dx, dy, x, y);
    IdentityFootprint(sw, x);
    IdentityFootprint(sh, y);
    FootprintIsMarked(hint, sw, sh, sw, sh, 0, x, y, x, y);
    forall mask | IsHintMask(hint, sw, sh, sw, sh, 0, mask)
      ensures Recomputed(mask, sw, sh, dw, dh, dx, dy)
    {
      assert DirtyAt(mask, sw, sh, x, y);
      FootprintInBox(Rect(x, y, x + 1, y + 1), sw, sh, dw, dh, SCALE_MARGIN, dx, dy, x, y);
      assert UnitBox(x, y, sw, sh, dw, dh).Has(dx, dy);
    }
  }

  /** A hint that covers the whole capture reaches every destination. */
  lemma FullHintReaches(hint: seq<Rect>, sw: nat, sh: nat, maxWidth: int, dx: int, dy: int)
    requires sw > 0 && sh > 0 && forall x, y :: 0 <= x < sw && 0 <= y < sh ==> InSome(hint, x, y)
    requires 0 <= dx < FrameW(sw, sh, maxWidth) && 0 <= dy < FrameH(sw, sh, maxWidth)
    ensures FreshAt(hint, sw, sh, maxWidth, dx, dy) && MarkedAt(hint, sw, sh, maxWidth, dx, dy)
  {
    var dw, dh := FrameW(sw, sh, maxWidth), FrameH(sw, sh, maxWidth);
    A.SpanBounds(sw, dw, dx);
    A.SpanBounds(sh, dh, dy);
    HintReachesItself(hint, sw, sh, maxWidth, dx, dy, A.First(sw, dw, dx), A.First(sh, dh, dy));
  }

  /** Whatever was skipped. */
  lemma FullHintIsSafe(missed: seq<Rect>, hint: seq<Rect>, sw: nat, sh: nat, maxWidth: int)
    requires forall x, y :: 0 <= x < sw && 0 <= y < sh ==> InSome(hint, x, y)
    ensures SkipSafe(missed, hint, sw, sh, maxWidth)
  {
    if sw > 0 && sh > 0 {
      forall dx, dy | Counts(missed, sw, sh, maxWidth, dx, dy)
        ensures FreshAt(hint, sw, sh, maxWidth, dx, dy) && MarkedAt(hint, sw, sh, maxWidth, dx, dy)
      {
        FullHintReaches(hint, sw, sh, maxWidth, dx, dy);
      }
    }
  }

  /** Captures that differ only inside skipped and current hints: in a changed destination
      skipped pixels count, or it reads a hinted one. */
  lemma ChangeCounts(prev: Img, src: Img, missed: seq<Rect>, hint: seq<Rect>, maxWidth: int, dx: int, dy: int)
    requires AgreeOutside(prev, src, missed + hint) && src.w > 0 && src.h > 0
    requires var a, b := FullScale(prev, maxWidth), FullScale(src, maxWidth);
             a.Valid() && b.Valid() && SameSize(a, b) && !AgreeAt(a, b, dx, dy)
    ensures Counts(missed, src.w, src.h, maxWidth, dx, dy)
            || exists x, y :: InSome(hint, x, y) && Reads(src.w, src.h, FrameW(src.w, src.h, maxWidth), FrameH(src.w, src.h, maxWidth), dx, dy, x, y)
  {
    FrameSize(src, maxWidth);
    var sw, sh, dw, dh := src.w, src.h, FrameW(src.w, src.h, maxWidth), FrameH(src.w, src.h, maxWidth);
    if !Shrinks(src, maxWidth) {
      InConcat(missed, hint, dx, dy);
      IdentityFootprint(sw, dx);
      IdentityFootprint(sh, dy);
      assert Reads(sw, sh, dw, dh, dx, dy, dx, dy);
    } else if WeightOf(missed, sw, sh, dw, dh, dx, dy) <= 0 {
      hide ScaledPixel, WeightOf, A.First, A.End;
      WeightRange(missed, sw, sh, dw, dh, dx, dy);
      if forall x, y :: InSome(hint, x, y) ==> !Reads(sw, sh, dw, dh, dx, dy, x, y) {
        forall x, y | A.First(sw, dw, dx) <= x < A.End(sw, dw, dx) && A.First(sh, dh, dy) <= y < A.End(sh, dh, dy)
          ensures InSome(missed, x, y) || AgreeAt(prev, src, x, y)
        {
          InConcat(missed, hint, x, y);
          assert Reads(sw, sh, dw, dh, dx, dy, x, y);
        }
        Unweighed(prev, src, missed, dw, dh, dx, dy);
      }
    }
  }

  /** The layer's cache after a faithful turn on `seen`. */
  ghost function TrueCache(seen: Img, maxWidth: int): Option<Cache>
    requires seen.Valid()
  {
    NextCache(seen, maxWidth, FullScale(seen, maxWidth))
  }

  lemma TrueCacheOK(seen: Img, maxWidth: int)
    requires seen.Valid()
    ensures CacheOK(TrueCache(seen, maxWidth)) && CacheTrue(TrueCache(seen, maxWidth))
  {
    FullScaleIsValid(seen, maxWidth);
    FullScaleSize(seen, maxWidth);
  }

  /** Safe for a key: nothing stale is left. */
  lemma SkippedScaleWorks(prev: Img, src: Img, missed: seq<Rect>, hint: seq<Rect>, maxWidth: int)
    requires AgreeOutside(prev, src, missed + hint) && src.w > 0 && src.h > 0 && KeySafe(missed, hint, src.w, src.h, maxWidth)
    ensures CacheOK(TrueCache(prev, maxWidth)) && StaleFree(TrueCache(prev, maxWidth), src, maxWidth, SrcHint(true, hint))
  {
    TrueCacheOK(prev, maxWidth);
    FrameSize(prev, maxWidth);
    FrameSize(src, maxWidth);
    var a, b, c := FullScale(prev, maxWidth), FullScale(src, maxWidth), TrueCache(prev, maxWidth);
    hide ScaledPixel, FreshAt, Counts, Reads;
    forall x, y | !AgreeAt(a, b, x, y)
      ensures FreshAt(hint, src.w, src.h, maxWidth, x, y)
    {
      ChangeCounts(prev, src, missed, hint, maxWidth, x, y);
      if !Counts(missed, src.w, src.h, maxWidth, x, y) {
        var u, v :| InSome(hint, u, v) && Reads(src.w, src.h, FrameW(src.w, src.h, maxWidth), FrameH(src.w, src.h, maxWidth), x, y, u, v);
        HintReachesItself(hint, src.w, src.h, maxWidth, x, y, u, v);
      }
    }
    if Uses(c, src, maxWidth) {
      forall mask | IsSrcMask(prev, src, SrcHint(true, hint), mask)
        ensures Refreshed(prev, src, mask, b.w, b.h)
      {
        FreshIsRefreshed(prev, src, hint, maxWidth, mask);
      }
    }
  }

  lemma FreshIsRefreshed(prev: Img, src: Img, hint: seq<Rect>, maxWidth: int, mask: seq<bool>)
    requires prev.Valid() && src.Valid() && SameSize(prev, src) && Shrinks(src, maxWidth)
    requires IsHintMask(hint, src.w, src.h, src.w, src.h, 0, mask)
    requires var a, b := FullScale(prev, maxWidth), FullScale(src, maxWidth);
             a.Valid() && b.Valid() && SameSize(a, b)
             && forall x, y :: !AgreeAt(a, b, x, y) ==> FreshAt(hint, src.w, src.h, maxWidth, x, y)
    ensures Refreshed(prev, src, mask, TargetWidth(maxWidth), TargetHeight(src, maxWidth))
  {
    hide ScaledPixel, Recomputed, IsHintMask;
    var dw, dh := TargetWidth(maxWidth), TargetHeight(src, maxWidth);
    var a, b := FullScale(prev, maxWidth), FullScale(src, maxWidth);
    if FewFlags(mask, src.w, src.h) {
      forall x, y | 0 <= x < dw && 0 <= y < dh
        ensures Recomputed(mask, src.w, src.h, dw, dh, x, y) || ScaledPixel(prev, dw, dh, x, y) == ScaledPixel(src, dw, dh, x, y)
      {
        if AgreeAt(a, b, x, y) {
          assert a.At(x, y) == ScaledPixel(prev, dw, dh, x, y) && b.At(x, y) == ScaledPixel(src, dw, dh, x, y);
        } else {
          assert Refreshes(hint, src.w, src.h, dw, dh, x, y);
        }
      }
    }
  }

  /** Safe for a diff: every changed tile is compared. */
  lemma SkippedDiffWorks(prev: Img, src: Img, missed: seq<Rect>, hint: seq<Rect>, maxWidth: int)
    requires AgreeOutside(prev, src, missed + hint) && src.w > 0 && src.h > 0 && MarkSafe(missed, hint, src.w, src.h, maxWidth)
    ensures var a, b := FullScale(prev, maxWidth), FullScale(src, maxWidth);
            a.Valid() && b.Valid() && SameSize(a, b) && ChangesAreMarked(a, b, SrcHint(true, hint), src.w, src.h)
  {
    FrameSize(prev, maxWidth);
    FrameSize(src, maxWidth);
    var a, b := FullScale(prev, maxWidth), FullScale(src, maxWidth);
    hide FullScale, Counts, Reads, Marked;
    forall x, y | !AgreeAt(a, b, x, y)
      ensures MarkedAt(hint, src.w, src.h, maxWidth, x, y)
    {
      ChangeCounts(prev, src, missed, hint, maxWidth, x, y);
      if !Counts(missed, src.w, src.h, maxWidth, x, y) {
        var u, v :| InSome(hint, u, v) && Reads(src.w, src.h, FrameW(src.w, src.h, maxWidth), FrameH(src.w, src.h, maxWidth), x, y, u, v);
        HintReachesItself(hint, src.w, src.h, maxWidth, x, y, u, v);
      }
    }
  }

  // ---- exactly when a skip is safe ----

  /** A layer that compares: the call and the diff after it give what a fresh scale and a
      plain diff would. */
  ghost predicate CallExact(prev: Img, src: Img, maxWidth: int, hint: seq<Rect>)
    requires prev.Valid() && src.Valid()
  {
    TrueCacheOK(prev, maxWidth);
    FrameSize(prev, maxWidth);
    forall dst: Img, dirty ::
      dst.Valid() && IsScale(TrueCache(prev, maxWidth), src, maxWidth, SrcHint(true, hint), dst)
      && IsFrameDiff(Some(FullScale(prev, maxWidth)), dst, SrcHint(true, hint), src.w, src.h, dirty)
      ==> dst == FullScale(src, maxWidth) && IsDiff(Some(FullScale(prev, maxWidth)), dst, dirty)
  }

  /** A layer that does not compare: the frame is a fresh scale. */
  ghost predicate KeyExact(prev: Img, src: Img, maxWidth: int, hint: seq<Rect>)
    requires prev.Valid() && src.Valid()
  {
    TrueCacheOK(prev, maxWidth);
    forall dst: Img :: IsScale(TrueCache(prev, maxWidth), src, maxWidth, SrcHint(true, hint), dst) ==> dst == FullScale(src, maxWidth)
  }

  /** Whatever the pixels of the captures were. */
  ghost predicate AlwaysExact(missed: seq<Rect>, hint: seq<Rect>, sw: nat, sh: nat, maxWidth: int) {
    forall prev: Img, src: Img ::
      src.w == sw && src.h == sh && AgreeOutside(prev, src, missed + hint) ==> CallExact(prev, src, maxWidth, hint)
  }

  ghost predicate AlwaysFresh(missed: seq<Rect>, hint: seq<Rect>, sw: nat, sh: nat, maxWidth: int) {
    forall prev: Img, src: Img ::
      src.w == sw && src.h == sh && AgreeOutside(prev, src, missed + hint) ==> KeyExact(prev, src, maxWidth, hint)
  }

  /** Wherever skipped pixels count, a change of theirs can show: their weight is more than
      half a step of an output value (a whole step where weight is lost). */
  ghost predicate Clear(missed: seq<Rect>, sw: nat, sh: nat, maxWidth: int) {
    sw > 0 && sh > 0 && ShrinksSize(sw, sh, maxWidth) ==>
      forall dx, dy :: Counts(missed, sw, sh, maxWidth, dx, dy) ==>
                         Shows(missed, sw, sh, FrameW(sw, sh, maxWidth), FrameH(sw, sh, maxWidth), dx, dy)
  }

  /** Scales on which every rectangle is clear: sides in the ratios px : qx and py : qy with
      floor(256 / px) * floor(256 / py) > 128, as in 1920 x 1080 to 1600 x 900 (6 : 5). */
  lemma RatioIsClear(missed: seq<Rect>, gx: nat, px: nat, qx: nat, gy: nat, py: nat, qy: nat, maxWidth: int)
    requires gx > 0 && px > 0 && qx > 0 && gy > 0 && py > 0 && qy > 0 && (256 / px) * (256 / py) > 128
    requires gx * px > 0 && gy * py > 0 && gx * qx > 0 && gy * qy > 0
    requires A.TapsOf(gx * px, gx * qx) <= 255 && A.TapsOf(gy * py, gy * qy) <= 255
    requires FrameW(gx * px, gy * py, maxWidth) == gx * qx && FrameH(gx * px, gy * py, maxWidth) == gy * qy
    ensures Clear(missed, gx * px, gy * py, maxWidth)
  {
    hide WeightOf, Shows, FrameW, FrameH, ShrinksSize;
    forall dx, dy | Counts(missed, gx * px, gy * py, maxWidth, dx, dy) && ShrinksSize(gx * px, gy * py, maxWidth)
      ensures Shows(missed, gx * px, gy * py, gx * qx, gy * qy, dx, dy)
    {
      RatioShows(missed, gx, px, qx, gy, py, qy, dx, dy);
    }
  }

  lemma HoledDiffers(missed: seq<Rect>, hint: seq<Rect>, w: nat, h: nat)
    ensures AgreeOutside(Holed(missed, w, h), White(w, h), missed + hint)
  {
    forall x, y | !InSome(missed + hint, x, y)
      ensures AgreeAt(Holed(missed, w, h), White(w, h), x, y)
    {
      InConcat(missed, hint, x, y);
    }
  }

  /** A mask of the hinted tiles. */
  ghost function HintMaskOf(hint: seq<Rect>, sw: nat, sh: nat, dw: nat, dh: nat, margin: int): (mask: seq<bool>)
    requires sw > 0 && sh > 0
    ensures IsHintMask(hint, sw, sh, dw, dh, margin, mask)
  {
    var p := (i, j) => Marked(hint, sw, sh, dw, dh, margin, i, j);
    GridBit(TilesFor(dw), TilesFor(dh), p);
    Grid(TilesFor(dw), TilesFor(dh), p)
  }

  /** The patched output, pixel by pixel. */
  ghost function PatchOf(c: Cache, src: Img, mask: seq<bool>): (dst: Img)
    requires c.dst.Valid() && c.dst.w > 0 && c.dst.h > 0 && src.Valid() && src.w > 0 && src.h > 0
    ensures IsPatch(c, src, mask, dst)
  {
    hide ScaledPixel, Recomputed;
    var w, h := c.dst.w, c.dst.h;
    Img(w, h, seq(h, y requires 0 <= y < h => seq(w, x requires 0 <= x < w =>
      if Recomputed(mask, src.w, src.h, w, h, x, y) then ScaledPixel(src, w, h, x, y) else c.dst.At(x, y))))
  }

  /** Some output meets the scaler's contract. */
  lemma SomeScale(c: Option<Cache>, src: Img, maxWidth: int, hint: seq<Rect>) returns (dst: Img)
    requires CacheOK(c) && src.Valid()
    ensures dst.Valid() && IsScale(c, src, maxWidth, SrcHint(true, hint), dst)
  {
    FullScaleIsValid(src, maxWidth);
    dst := FullScale(src, maxWidth);
    if Uses(c, src, maxWidth) {
      var mask := HintMaskOf(hint, src.w, src.h, src.w, src.h, 0);
      assert IsSrcMask(c.value.src, src, SrcHint(true, hint), mask);
      if FewFlags(mask, src.w, src.h) {
        hide ScaledPixel;
        dst := PatchOf(c.value, src, mask);
      }
    }
  }

  /** And some mask meets the diff's contract. */
  lemma SomeDiff(prev: Img, cur: Img, hint: seq<Rect>, sw: nat, sh: nat) returns (dirty: seq<bool>)
    requires prev.Valid() && cur.Valid() && SameSize(prev, cur) && sw > 0 && sh > 0
    ensures IsFrameDiff(Some(prev), cur, SrcHint(true, hint), sw, sh, dirty)
  {
    var m, tx, ty := MarginFor(cur.w, cur.h, sw, sh), TilesFor(cur.w), TilesFor(cur.h);
    var mask := HintMaskOf(hint, sw, sh, cur.w, cur.h, m);
    var p := (i, j) => Marked(hint, sw, sh, cur.w, cur.h, m, i, j) && TileChanged(prev, cur, i, j);
    GridBit(tx, ty, p);
    dirty := Grid(tx, ty, p);
    assert IsMaskedDiff(prev, cur, mask, dirty);
  }

  /** Blackened rectangles that turn white again show in a destination where they are clear. */
  lemma PixelTurns(missed: seq<Rect>, sw: nat, sh: nat, maxWidth: int, dx: int, dy: int)
    requires sw > 0 && sh > 0 && Counts(missed, sw, sh, maxWidth, dx, dy) && Clear(missed, sw, sh, maxWidth)
    ensures var a, b := FullScale(Holed(missed, sw, sh), maxWidth), FullScale(White(sw, sh), maxWidth);
            a.Valid() && b.Valid() && a.w == FrameW(sw, sh, maxWidth) && a.h == FrameH(sw, sh, maxWidth) && SameSize(a, b)
            && !AgreeAt(a, b, dx, dy)
  {
    FrameSize(Holed(missed, sw, sh), maxWidth);
    FrameSize(White(sw, sh), maxWidth);
    if ShrinksSize(sw, sh, maxWidth) {
      HolesShow(missed, sw, sh, FrameW(sw, sh, maxWidth), FrameH(sw, sh, maxWidth), dx, dy);
      hide ScaledPixel;
    }
  }

  /** A changed destination that is not scaled afresh is stale. */
  lemma StaleHere(prev: Img, src: Img, hint: seq<Rect>, maxWidth: int, dx: int, dy: int)
    requires prev.Valid() && src.Valid() && SameSize(prev, src) && src.w > 0 && src.h > 0 && !FreshAt(hint, src.w, src.h, maxWidth, dx, dy)
    requires var a, b := FullScale(prev, maxWidth), FullScale(src, maxWidth);
             a.Valid() && b.Valid() && SameSize(a, b) && !AgreeAt(a, b, dx, dy)
    ensures CacheOK(TrueCache(prev, maxWidth)) && !StaleFree(TrueCache(prev, maxWidth), src, maxWidth, SrcHint(true, hint))
  {
    TrueCacheOK(prev, maxWidth);
    FrameSize(src, maxWidth);
    var dw, dh := FrameW(src.w, src.h, maxWidth), FrameH(src.w, src.h, maxWidth);
    hide ScaledPixel, IsHintMask, FewFlags, Recomputed;
    var mask :| IsHintMask(hint, src.w, src.h, src.w, src.h, 0, mask) && FewFlags(mask, src.w, src.h)
                && !Recomputed(mask, src.w, src.h, dw, dh, dx, dy);
    assert IsSrcMask(prev, src, SrcHint(true, hint), mask);
    assert ScaledPixel(prev, dw, dh, dx, dy) != ScaledPixel(src, dw, dh, dx, dy);
    assert !Refreshed(prev, src, mask, dw, dh);
  }

  /** A changed destination whose tile is not compared is lost. */
  lemma UncomparedHere(prev: Img, src: Img, hint: seq<Rect>, maxWidth: int, dx: int, dy: int)
    requires prev.Valid() && src.Valid() && SameSize(prev, src) && src.w > 0 && src.h > 0 && !MarkedAt(hint, src.w, src.h, maxWidth, dx, dy)
    requires var a, b := FullScale(prev, maxWidth), FullScale(src, maxWidth);
             a.Valid() && b.Valid() && SameSize(a, b) && !AgreeAt(a, b, dx, dy)
    ensures !ChangesAreMarked(FullScale(prev, maxWidth), FullScale(src, maxWidth), SrcHint(true, hint), src.w, src.h)
  {
    FrameSize(src, maxWidth);
    hide FullScale, Marked;
  }

  /** A destination in which skipped pixels count and that is not scaled afresh goes stale,
      for some pixel contents. */
  lemma UnrefreshedIsStale(missed: seq<Rect>, hint: seq<Rect>, sw: nat, sh: nat, maxWidth: int, dx: int, dy: int)
    requires sw > 0 && sh > 0 && Clear(missed, sw, sh, maxWidth) && Counts(missed, sw, sh, maxWidth, dx, dy)
    requires !FreshAt(hint, sw, sh, maxWidth, dx, dy)
    ensures !AlwaysFresh(missed, hint, sw, sh, maxWidth)
  {
    var prev, src := Holed(missed, sw, sh), White(sw, sh);
    HoledDiffers(missed, hint, sw, sh);
    TrueCacheOK(prev, maxWidth);
    PixelTurns(missed, sw, sh, maxWidth, dx, dy);
    var dst := SomeScale(TrueCache(prev, maxWidth), src, maxWidth, hint);
    hide IsScale, FullScale, StaleFree, FreshAt, Holed, Clear, Counts;
    StaleHere(prev, src, hint, maxWidth, dx, dy);
    ScaleExactly(TrueCache(prev, maxWidth), src, maxWidth, SrcHint(true, hint), dst);
  }

  /** Such a destination, stale or not compared, is lost to a layer that compares. */
  lemma UnreachedIsLost(missed: seq<Rect>, hint: seq<Rect>, sw: nat, sh: nat, maxWidth: int, dx: int, dy: int)
    requires sw > 0 && sh > 0 && Clear(missed, sw, sh, maxWidth) && Counts(missed, sw, sh, maxWidth, dx, dy)
    requires !FreshAt(hint, sw, sh, maxWidth, dx, dy) || !MarkedAt(hint, sw, sh, maxWidth, dx, dy)
    ensures !AlwaysExact(missed, hint, sw, sh, maxWidth)
  {
    var prev, src := Holed(missed, sw, sh), White(sw, sh);
    HoledDiffers(missed, hint, sw, sh);
    FrameSize(prev, maxWidth);
    FrameSize(src, maxWidth);
    TrueCacheOK(prev, maxWidth);
    var c := TrueCache(prev, maxWidth);
    var a, b := FullScale(prev, maxWidth), FullScale(src, maxWidth);
    PixelTurns(missed, sw, sh, maxWidth, dx, dy);
    var dst := SomeScale(c, src, maxWidth, hint);
    IsScaleOK(c, src, maxWidth, SrcHint(true, hint), dst);
    var dirty := SomeDiff(a, dst, hint, sw, sh);
    hide IsScale, FullScale, IsFrameDiff, ChangesAreMarked, StaleFree, FreshAt, MarkedAt, Holed, Clear, Counts;
    if CallExact(prev, src, maxWidth, hint) {
      assert dst == b;
      if !FreshAt(hint, sw, sh, maxWidth, dx, dy) {
        StaleHere(prev, src, hint, maxWidth, dx, dy);
        ScaleExactly(c, src, maxWidth, SrcHint(true, hint), dst);
      } else {
        UncomparedHere(prev, src, hint, maxWidth, dx, dy);
        HintedDiffExact(a, b, SrcHint(true, hint), sw, sh, dirty);
      }
    }
  }

  /** A safe skip is always exact. */
  lemma SafeIsExact(missed: seq<Rect>, hint: seq<Rect>, sw: nat, sh: nat, maxWidth: int)
    requires sw > 0 && sh > 0
    ensures KeySafe(missed, hint, sw, sh, maxWidth) ==> AlwaysFresh(missed, hint, sw, sh, maxWidth)
    ensures SkipSafe(missed, hint, sw, sh, maxWidth) ==> AlwaysExact(missed, hint, sw, sh, maxWidth)
  {
    hide KeySafe, MarkSafe, KeyExact, CallExact;
    forall prev: Img, src: Img | src.w == sw && src.h == sh && AgreeOutside(prev, src, missed + hint)
      ensures KeySafe(missed, hint, sw, sh, maxWidth) ==> KeyExact(prev, src, maxWidth, hint)
      ensures SkipSafe(missed, hint, sw, sh, maxWidth) ==> CallExact(prev, src, maxWidth, hint)
    {
      if KeySafe(missed, hint, sw, sh, maxWidth) {
        SafeKey(prev, src, missed, hint, maxWidth);
        if MarkSafe(missed, hint, sw, sh, maxWidth) {
          SafeCall(prev, src, missed, hint, maxWidth);
        }
      }
    }
  }

  lemma SafeKey(prev: Img, src: Img, missed: seq<Rect>, hint: seq<Rect>, maxWidth: int)
    requires AgreeOutside(prev, src, missed + hint) && src.w > 0 && src.h > 0 && KeySafe(missed, hint, src.w, src.h, maxWidth)
    ensures KeyExact(prev, src, maxWidth, hint)
  {
    SkippedScaleWorks(prev, src, missed, hint, maxWidth);
    TrueCacheOK(prev, maxWidth);
    var c, h := TrueCache(prev, maxWidth), SrcHint(true, hint);
    hide IsScale, FullScale, StaleFree, KeySafe, AgreeOutside, TrueCache;
    forall dst: Img | IsScale(c, src, maxWidth, h, dst)
      ensures dst == FullScale(src, maxWidth)
    {
      ScaleExactly(c, src, maxWidth, h, dst);
    }
  }

  lemma SafeCall(prev: Img, src: Img, missed: seq<Rect>, hint: seq<Rect>, maxWidth: int)
    requires AgreeOutside(prev, src, missed + hint) && src.w > 0 && src.h > 0 && SkipSafe(missed, hint, src.w, src.h, maxWidth)
    ensures CallExact(prev, src, maxWidth, hint)
  {
    SkippedScaleWorks(prev, src, missed, hint, maxWidth);
    SkippedDiffWorks(prev, src, missed, hint, maxWidth);
    TrueCacheOK(prev, maxWidth);
    FrameSize(prev, maxWidth);
    var a, b, c, h := FullScale(prev, maxWidth), FullScale(src, maxWidth), TrueCache(prev, maxWidth), SrcHint(true, hint);
    hide IsScale, FullScale, IsFrameDiff, IsDiff, ChangesAreMarked, StaleFree, SkipSafe, AgreeOutside, TrueCache;
    forall dst: Img, dirty | dst.Valid() && IsScale(c, src, maxWidth, h, dst) && IsFrameDiff(Some(a), dst, h, src.w, src.h, dirty)
      ensures dst == b && IsDiff(Some(a), dst, dirty)
    {
      ScaleExactly(c, src, maxWidth, h, dst);
      HintedDiffExact(a, b, h, src.w, src.h, dirty);
    }
  }

  /** A frame that is not compared is fresh, for all pixel contents, if and only if every
      destination in which skipped pixels count is scaled afresh. Only a weight of at most
      half a step may be lost in rounding. */
  lemma KeyExactly(missed: seq<Rect>, hint: seq<Rect>, sw: nat, sh: nat, maxWidth: int)
    requires sw > 0 && sh > 0 && Clear(missed, sw, sh, maxWidth)
    ensures AlwaysFresh(missed, hint, sw, sh, maxWidth) <==> KeySafe(missed, hint, sw, sh, maxWidth)
  {
    hide AlwaysFresh, AlwaysExact, FreshAt, Counts, Clear;
    SafeIsExact(missed, hint, sw, sh, maxWidth);
    if !KeySafe(missed, hint, sw, sh, maxWidth) {
      var dx, dy :| Counts(missed, sw, sh, maxWidth, dx, dy) && !FreshAt(hint, sw, sh, maxWidth, dx, dy);
      UnrefreshedIsStale(missed, hint, sw, sh, maxWidth, dx, dy);
    }
  }

  /** A compared frame is fresh and its diff plain, for all pixel contents, if and only if
      those destinations are also compared. */
  lemma SkipsExactly(missed: seq<Rect>, hint: seq<Rect>, sw: nat, sh: nat, maxWidth: int)
    requires sw > 0 && sh > 0 && Clear(missed, sw, sh, maxWidth)
    ensures AlwaysExact(missed, hint, sw, sh, maxWidth) <==> SkipSafe(missed, hint, sw, sh, maxWidth)
  {
    hide AlwaysFresh, AlwaysExact, FreshAt, MarkedAt, Counts, Clear;
    SafeIsExact(missed, hint, sw, sh, maxWidth);
    if !SkipSafe(missed, hint, sw, sh, maxWidth) {
      var dx, dy :| Counts(missed, sw, sh, maxWidth, dx, dy)
                    && (!FreshAt(hint, sw, sh, maxWidth, dx, dy) || !MarkedAt(hint, sw, sh, maxWidth, dx, dy));
      UnreachedIsLost(missed, hint, sw, sh, maxWidth, dx, dy);
    }
  }

  // ---- unscaled layers ----

  /** Pixels of skipped hints all fall in tiles of the current hint. */
  ghost predicate HintReaches(missed: seq<Rect>, hint: seq<Rect>, w: nat, h: nat) {
    forall x, y :: 0 <= x < w && 0 <= y < h && InSome(missed, x, y) ==>
                     w > 0 && h > 0 && Marked(hint, w, h, w, h, 0, x / TILE, y / TILE)
  }

  /** For an unscaled layer that compares, the condition is about tiles alone. */
  lemma SkippedHintsExact(missed: seq<Rect>, hint: seq<Rect>, w: nat, h: nat, maxWidth: int)
    requires w > 0 && h > 0 && !ShrinksSize(w, h, maxWidth)
    ensures AlwaysExact(missed, hint, w, h, maxWidth) <==> HintReaches(missed, hint, w, h)
  {
    hide Marked, AlwaysExact;
    SkipsExactly(missed, hint, w, h, maxWidth);
    if MarkSafe(missed, hint, w, h, maxWidth) {
      forall x, y | 0 <= x < w && 0 <= y < h && InSome(missed, x, y)
        ensures Marked(hint, w, h, w, h, 0, x / TILE, y / TILE)
      {
        assert Counts(missed, w, h, maxWidth, x, y);
        assert MarkedAt(hint, w, h, maxWidth, x, y);
      }
    }
  }

  /** A frame of an unscaled layer that is not compared is never stale. */
  lemma UnscaledKeysAreFresh(missed: seq<Rect>, hint: seq<Rect>, w: nat, h: nat, maxWidth: int)
    requires w > 0 && h > 0 && !ShrinksSize(w, h, maxWidth)
    ensures AlwaysFresh(missed, hint, w, h, maxWidth)
  {
    hide AlwaysFresh;
    KeyExactly(missed, hint, w, h, maxWidth);
  }

  /** Two tiles side by side: the layer skips the capture that changed the left one, and
      the next capture's hint names only the right one. */
  lemma SkippedCaptureLosesTile(maxWidth: int)
    requires !ShrinksSize(65, 1, maxWidth)
    ensures !AlwaysExact([Rect(0, 0, 1, 1)], [Rect(64, 0, 65, 1)], 65, 1, maxWidth)
  {
    var missed, hint := [Rect(0, 0, 1, 1)], [Rect(64, 0, 65, 1)];
    hide AlwaysExact;
    SkippedHintsExact(missed, hint, 65, 1, maxWidth);
    assert missed[0].Has(0, 0);
    assert !Marked(hint, 65, 1, 65, 1, 0, 0 / TILE, 0 / TILE);
  }

  // ---- a scaled layer keeps old pixels ----

  /** Outside the recomputed pixels the old output stays. */
  lemma StaleStays(prev: Img, src: Img, maxWidth: int, hint: seq<Rect>, dst: Img, dx: int, dy: int)
    requires prev.Valid() && src.Valid() && SameSize(prev, src) && Shrinks(src, maxWidth)
    requires CacheOK(TrueCache(prev, maxWidth)) && IsScale(TrueCache(prev, maxWidth), src, maxWidth, SrcHint(true, hint), dst)
    requires forall mask :: IsHintMask(hint, src.w, src.h, src.w, src.h, 0, mask) ==>
                              FewFlags(mask, src.w, src.h)
                              && !Recomputed(mask, src.w, src.h, FrameW(src.w, src.h, maxWidth), FrameH(src.w, src.h, maxWidth), dx, dy)
    requires 0 <= dx < FrameW(src.w, src.h, maxWidth) && 0 <= dy < FrameH(src.w, src.h, maxWidth)
    ensures FullScale(prev, maxWidth).Valid() && dst.Valid() && SameSize(dst, FullScale(prev, maxWidth))
    ensures FullScale(prev, maxWidth).w == FrameW(src.w, src.h, maxWidth) && FullScale(prev, maxWidth).h == FrameH(src.w, src.h, maxWidth)
    ensures dst.At(dx, dy) == FullScale(prev, maxWidth).At(dx, dy)
  {
    FrameSize(prev, maxWidth);
    IsScaleOK(TrueCache(prev, maxWidth), src, maxWidth, SrcHint(true, hint), dst);
    FrameSize(src, maxWidth);
    hide ScaledPixel, Recomputed, FewFlags, FullScale;
  }

  /** A destination that reads nothing but the rectangles turns from black to white. */
  lemma WhollyTurns(missed: seq<Rect>, w: nat, h: nat, dw: nat, dh: nat, dx: int, dy: int)
    requires w > 0 && h > 0 && 0 <= dx < dw && 0 <= dy < dh && FullPixel(w, h, dw, dh, dx, dy)
    requires forall x, y :: Reads(w, h, dw, dh, dx, dy, x, y) ==> InSome(missed, x, y)
    ensures CanScale(Holed(missed, w, h), dw, dh) && CanScale(White(w, h), dw, dh)
    ensures ScaledPixel(Holed(missed, w, h), dw, dh, dx, dy) == BLACK && ScaledPixel(White(w, h), dw, dh, dx, dy) == WHITE
  {
    hide A.First, A.End, A.FullWeight, Channel;
    var a, b := Holed(missed, w, h), White(w, h);
    forall c | 0 <= c < 3
      ensures Channel(a, dw, dh, dx, dy, c) == 0 && Channel(b, dw, dh, dx, dy, c) == 255
    {
      forall x, y | 0 <= x < w && 0 <= y < h && A.First(w, dw, dx) <= x < A.End(w, dw, dx) && A.First(h, dh, dy) <= y < A.End(h, dh, dy)
        ensures a.At(x, y) == BLACK
      {
        assert Reads(w, h, dw, dh, dx, dy, x, y);
      }
      ChannelWithinFootprint(a, dw, dh, dx, dy, c, 0, 0);
      ChannelWithinFootprint(b, dw, dh, dx, dy, c, 255, 255);
    }
  }

  /** 128 columns scaled to 64. The layer skips a capture that turned columns 0 and 1 from
      black to white; the hint of the next one names column 127. One of two tiles is flagged,
      so only the right half is recomputed, and column 0 stays black where a fresh scale is
      white. No later step looks at it again: it goes out even in a key frame. */
  lemma StaleColumn(dst: Img)
    requires CacheOK(TrueCache(Holed([Rect(0, 0, 2, 1)], 128, 1), 64)) && White(128, 1).Valid()
    requires IsScale(TrueCache(Holed([Rect(0, 0, 2, 1)], 128, 1), 64), White(128, 1), 64, SrcHint(true, [Rect(127, 0, 128, 1)]), dst)
    ensures dst.Valid() && dst.w == 64 && dst.h == 1 && dst.At(0, 0) == BLACK
    ensures var whole := FullScale(White(128, 1), 64);
            whole.Valid() && whole.w == 64 && whole.h == 1 && whole.At(0, 0) == WHITE
  {
    var missed, hint := [Rect(0, 0, 2, 1)], [Rect(127, 0, 128, 1)];
    FirstColumnTurns(missed);
    forall mask | IsHintMask(hint, 128, 1, 128, 1, 0, mask)
      ensures FewFlags(mask, 128, 1) && !Recomputed(mask, 128, 1, 64, 1, 0, 0)
    {
      RightTileOnly(hint, mask);
    }
    hide FullScale, IsScale, FewFlags, Recomputed, IsHintMask, Holed;
    SizesOf(missed);
    StaleStays(Holed(missed, 128, 1), White(128, 1), 64, hint, dst, 0, 0);
  }

  lemma SizesOf(missed: seq<Rect>)
    ensures var a, b := Holed(missed, 128, 1), White(128, 1); a.Valid() && b.Valid() && SameSize(a, b) && Shrinks(b, 64) && b.w == 128 && b.h == 1
  {
  }

  lemma FirstColumnTurns(missed: seq<Rect>)
    requires missed == [Rect(0, 0, 2, 1)]
    ensures Holed(missed, 128, 1).Valid() && White(128, 1).Valid()
    ensures var a, b := FullScale(Holed(missed, 128, 1), 64), FullScale(White(128, 1), 64);
            a.Valid() && b.Valid() && a.w == b.w == 64 && a.h == b.h == 1 && a.At(0, 0) == BLACK && b.At(0, 0) == WHITE
  {
    forall x, y | Reads(128, 1, 64, 1, 0, 0, x, y)
      ensures InSome(missed, x, y)
    {
      assert missed[0].Has(x, y);
    }
    FrameSize(Holed(missed, 128, 1), 64);
    FrameSize(White(128, 1), 64);
    WhollyTurns(missed, 128, 1, 64, 1, 0, 0);
    hide ScaledPixel;
  }

  lemma RightTileOnly(hint: seq<Rect>, mask: seq<bool>)
    requires hint == [Rect(127, 0, 128, 1)] && IsHintMask(hint, 128, 1, 128, 1, 0, mask)
    ensures FewFlags(mask, 128, 1) && !Recomputed(mask, 128, 1, 64, 1, 0, 0)
  {
    assert |mask| == 2;
    assert !Marked(hint, 128, 1, 128, 1, 0, 0, 0);
    assert !TileBit(mask, 2, 0, 0);
    assert mask[..1][..0] == [];
    assert Flags(mask) == Flags(mask[..1]) + Bit(mask[1]);
    assert Flags(mask[..1]) == Flags(mask[..1][..0]) + Bit(mask[..1][0]);
    forall x, y | DirtyAt(mask, 128, 1, x, y)
      ensures !UnitBox(x, y, 128, 1, 64, 1).Has(0, 0)
    {
      assert x >= 64;
    }
  }
}
