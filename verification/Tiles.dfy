/** The 64 px tile grid: which tiles changed, and rectangles that cover dirty tiles. */
module Tiles {
  import opened Geometry
  import opened Raster

  const TILE: int := 64

  function TilesFor(n: nat): nat {
    (n + TILE - 1) / TILE
  }

  /** Flag of tile (i, j) in a row-major mask of tx columns. */
  ghost predicate TileBit(mask: seq<bool>, tx: int, i: int, j: int) {
    0 <= i < tx && 0 <= j && 0 <= j * tx + i < |mask| && mask[j * tx + i]
  }

  /** The pixel is on the canvas and its tile is flagged. */
  ghost predicate DirtyAt(mask: seq<bool>, w: nat, h: nat, x: int, y: int) {
    0 <= x < w && 0 <= y < h && TileBit(mask, TilesFor(w), x / TILE, y / TILE)
  }

  /** Some pixel of tile (i, j) differs. */
  ghost predicate TileChanged(a: Img, b: Img, i: int, j: int)
    requires a.Valid() && b.Valid() && SameSize(a, b)
  {
    exists x, y :: x / TILE == i && y / TILE == j && !AgreeAt(a, b, x, y)
  }

  /** The mask flags exactly the changed tiles; without a previous frame of the same
      size it flags all of them. */
  ghost predicate IsDiff(prev: Option<Img>, cur: Img, mask: seq<bool>)
    requires cur.Valid() && (prev.Some? ==> prev.value.Valid())
  {
    var tx, ty := TilesFor(cur.w), TilesFor(cur.h);
    && |mask| == tx * ty
    && if prev.Some? && SameSize(prev.value, cur)
       then forall i, j :: 0 <= i < tx && 0 <= j < ty ==> (TileBit(mask, tx, i, j) <==> TileChanged(prev.value, cur, i, j))
       else forall k :: 0 <= k < |mask| ==> mask[k]
  }

  lemma TileIndex(i: int, j: int, tx: int, ty: int)
    requires 0 <= i < tx && 0 <= j < ty
    ensures 0 <= j * tx + i < tx * ty
  {
    assert j * tx + i < (j + 1) * tx <= ty * tx;
  }

  lemma TileIndexInj(i: int, j: int, i': int, j': int, tx: int)
    requires 0 <= i < tx && 0 <= i' < tx
    requires j * tx + i == j' * tx + i'
    ensures i == i' && j == j'
  {
    MulMono(j + 1, j', tx);
    MulMono(j' + 1, j, tx);
  }

  lemma TileOfIndex(k: int, tx: int, ty: int) returns (i: int, j: int)
    requires 0 <= k < tx * ty && tx >= 0 && ty >= 0
    ensures 0 <= i < tx && 0 <= j < ty && k == j * tx + i
  {
    i, j := k % tx, k / tx;
    MulMono(ty, j, tx);
  }

  /** Setting one flag changes the view of that tile only. */
  lemma SetBit(mask: seq<bool>, tx: int, ty: int, i: int, j: int)
    requires 0 <= i < tx && 0 <= j < ty && |mask| == tx * ty
    ensures 0 <= j * tx + i < |mask|
    ensures forall i', j' :: TileBit(mask[j * tx + i := true], tx, i', j') <==> TileBit(mask, tx, i', j') || (i' == i && j' == j)
  {
    TileIndex(i, j, tx, ty);
    var m := mask[j * tx + i := true];
    forall i', j'
      ensures TileBit(m, tx, i', j') <==> TileBit(mask, tx, i', j') || (i' == i && j' == j)
    {
      if 0 <= i' < tx && j' * tx + i' == j * tx + i {
        TileIndexInj(i, j, i', j', tx);
      }
    }
  }

  /** A mask is determined by its tile view. */
  lemma MaskExt(a: seq<bool>, b: seq<bool>, tx: int, ty: int)
    requires tx >= 0 && ty >= 0 && |a| == |b| == tx * ty
    requires forall i, j :: 0 <= i < tx && 0 <= j < ty ==> (TileBit(a, tx, i, j) <==> TileBit(b, tx, i, j))
    ensures a == b
  {
    forall k | 0 <= k < |a|
      ensures a[k] == b[k]
    {
      var i, j := TileOfIndex(k, tx, ty);
      assert TileBit(a, tx, i, j) <==> TileBit(b, tx, i, j);
    }
  }

  lemma DiffIsUnique(prev: Option<Img>, cur: Img, a: seq<bool>, b: seq<bool>)
    requires cur.Valid() && (prev.Some? ==> prev.value.Valid())
    requires IsDiff(prev, cur, a) && IsDiff(prev, cur, b)
    ensures a == b
  {
    if prev.Some? && SameSize(prev.value, cur) {
      MaskExt(a, b, TilesFor(cur.w), TilesFor(cur.h));
    }
  }

  /** Every pixel of an all-true mask is dirty. */
  lemma FullMask(mask: seq<bool>, w: nat, h: nat, x: int, y: int)
    requires |mask| == TilesFor(w) * TilesFor(h) && forall k :: 0 <= k < |mask| ==> mask[k]
    requires 0 <= x < w && 0 <= y < h
    ensures DirtyAt(mask, w, h, x, y)
  {
    TileIndex(x / TILE, y / TILE, TilesFor(w), TilesFor(h));
  }

  /** No changed pixel escapes a diff mask. */
  lemma DiffCovers(prev: Img, cur: Img, mask: seq<bool>, x: int, y: int)
    requires prev.Valid() && cur.Valid() && SameSize(prev, cur)
    requires IsDiff(Some(prev), cur, mask)
    requires !AgreeAt(prev, cur, x, y)
    ensures DirtyAt(mask, cur.w, cur.h, x, y)
  {
  }

  /** The row-slice comparison of one tile, as diffTiles does it. */
  method CompareTile(prev: Img, cur: Img, i: int, j: int) returns (changed: bool)
    requires prev.Valid() && cur.Valid() && SameSize(prev, cur)
    requires 0 <= i < TilesFor(cur.w) && 0 <= j < TilesFor(cur.h)
    ensures changed <==> TileChanged(prev, cur, i, j)
  {
    var y0, y1 := j * TILE, Min((j + 1) * TILE, cur.h);
    var x0, x1 := i * TILE, Min((i + 1) * TILE, cur.w);
    changed := false;
    var y := y0;
    while y < y1
      invariant y0 <= y <= y1
      invariant forall x', y' :: x' / TILE == i && y0 <= y' < y ==> AgreeAt(prev, cur, x', y')
    {
      var p, c := prev.px[y][x0..x1], cur.px[y][x0..x1];
      if p != c {
        ghost var k :| 0 <= k < x1 - x0 && p[k] != c[k];
        assert !AgreeAt(prev, cur, x0 + k, y);
        return true;
      }
      forall x', y' | x' / TILE == i && y' == y
        ensures AgreeAt(prev, cur, x', y')
      {
        if 0 <= x' < cur.w {
          assert p[x' - x0] == c[x' - x0];
        }
      }
      y := y + 1;
    }
  }

  method DiffTiles(prev: Option<Img>, cur: Img) returns (dirty: seq<bool>)
    requires cur.Valid() && (prev.Some? ==> prev.value.Valid())
    ensures IsDiff(prev, cur, dirty)
  {
    var tx, ty := TilesFor(cur.w), TilesFor(cur.h);
    if prev.None? || !SameSize(prev.value, cur) {
      dirty := seq(tx * ty, _ => true);
      return;
    }
    dirty := seq(tx * ty, _ => false);
    var j := 0;
    while j < ty
      invariant 0 <= j <= ty && |dirty| == tx * ty
      invariant DiffUpTo(prev.value, cur, dirty, 0, j)
    {
      var i := 0;
      while i < tx
        invariant 0 <= i <= tx && |dirty| == tx * ty
        invariant DiffUpTo(prev.value, cur, dirty, i, j)
      {
        var changed := CompareTile(prev.value, cur, i, j);
        DiffStep(prev.value, cur, dirty, i, j);
        if changed {
          dirty := dirty[TileAt(i, j, tx, ty) := true];
        }
        i := i + 1;
      }
      DiffRowDone(prev.value, cur, dirty, j);
      j := j + 1;
    }
    DiffDone(prev.value, cur, dirty);
  }

  /** The mask is the diff for the tiles before (i, j) in row-major order, clear after. */
  ghost predicate DiffUpTo(prev: Img, cur: Img, mask: seq<bool>, i: int, j: int)
    requires prev.Valid() && cur.Valid() && SameSize(prev, cur)
  {
    forall i', j' :: TileBit(mask, TilesFor(cur.w), i', j') ==
                     (0 <= i' < TilesFor(cur.w) && 0 <= j' && (j' < j || (j' == j && i' < i)) && TileChanged(prev, cur, i', j'))
  }

  lemma DiffStep(prev: Img, cur: Img, mask: seq<bool>, i: int, j: int)
    requires prev.Valid() && cur.Valid() && SameSize(prev, cur)
    requires 0 <= i < TilesFor(cur.w) && 0 <= j < TilesFor(cur.h) && |mask| == TilesFor(cur.w) * TilesFor(cur.h)
    requires DiffUpTo(prev, cur, mask, i, j)
    ensures DiffUpTo(prev, cur, if TileChanged(prev, cur, i, j) then mask[TileAt(i, j, TilesFor(cur.w), TilesFor(cur.h)) := true] else mask, i + 1, j)
  {
    SetBit(mask, TilesFor(cur.w), TilesFor(cur.h), i, j);
  }

  lemma DiffRowDone(prev: Img, cur: Img, mask: seq<bool>, j: int)
    requires prev.Valid() && cur.Valid() && SameSize(prev, cur)
    requires DiffUpTo(prev, cur, mask, TilesFor(cur.w), j) && 0 <= j
    ensures DiffUpTo(prev, cur, mask, 0, j + 1)
  {
  }

  lemma DiffDone(prev: Img, cur: Img, mask: seq<bool>)
    requires prev.Valid() && cur.Valid() && SameSize(prev, cur)
    requires |mask| == TilesFor(cur.w) * TilesFor(cur.h)
    requires DiffUpTo(prev, cur, mask, 0, TilesFor(cur.h))
    ensures IsDiff(Some(prev), cur, mask)
  {
  }

  /** The part of the dirty area that lies before tile (i, j) in row-major order. */
  ghost predicate DoneAt(dirty: seq<bool>, w: nat, h: nat, i: int, j: int, x: int, y: int) {
    DirtyAt(dirty, w, h, x, y) && (y < j * TILE || (y < (j + 1) * TILE && x < i * TILE))
  }

  ghost predicate GoodRects(rs: seq<Rect>, w: nat, h: nat) {
    forall k :: 0 <= k < |rs| ==> !rs[k].Empty() && rs[k].Within(w, h)
  }

  function TileAt(i: int, j: int, tx: int, ty: int): (k: int)
    requires 0 <= i < tx && 0 <= j < ty
    ensures 0 <= k < tx * ty
  {
    TileIndex(i, j, tx, ty);
    j * tx + i
  }

  function StripOf(s: int, e: int, j: int, w: nat, h: nat): Rect {
    Rect(s * TILE, j * TILE, Min(e * TILE, w), Min((j + 1) * TILE, h))
  }

  lemma SkipTile(dirty: seq<bool>, w: nat, h: nat, i: int, j: int)
    requires !TileBit(dirty, TilesFor(w), i, j)
    ensures forall x, y :: DoneAt(dirty, w, h, i + 1, j, x, y) == DoneAt(dirty, w, h, i, j, x, y)
  {
  }

  lemma StripAdvances(dirty: seq<bool>, w: nat, h: nat, s: int, e: int, j: int)
    requires 0 <= s < e <= TilesFor(w) && 0 <= j < TilesFor(h)
    requires forall i :: s <= i < e ==> TileBit(dirty, TilesFor(w), i, j)
    ensures forall x, y :: Bit(DoneAt(dirty, w, h, e, j, x, y))
                           == Bit(DoneAt(dirty, w, h, s, j, x, y)) + Bit(StripOf(s, e, j, w, h).Has(x, y))
  {
  }

  lemma RowDone(dirty: seq<bool>, w: nat, h: nat, j: int)
    requires 0 <= j
    ensures forall x, y :: DoneAt(dirty, w, h, 0, j + 1, x, y) == DoneAt(dirty, w, h, TilesFor(w), j, x, y)
  {
  }

  lemma AllDone(dirty: seq<bool>, w: nat, h: nat)
    ensures forall x, y :: DoneAt(dirty, w, h, 0, TilesFor(h), x, y) == DirtyAt(dirty, w, h, x, y)
  {
  }

  /** Non-empty parts of r with sides of at most maxDim. */
  ghost predicate PiecesOf(out: seq<Rect>, r: Rect, maxDim: int) {
    forall k :: 0 <= k < |out| ==> !out[k].Empty() && out[k].Dx() <= maxDim && out[k].Dy() <= maxDim && out[k].Intersect(r) == out[k]
  }

  /** Exactly the points of r above y, or left of x in the band of height d at y, are covered once. */
  ghost predicate SplitUpTo(out: seq<Rect>, r: Rect, x: int, y: int, d: int) {
    forall x', y' :: Count(out, x', y') == Bit(r.Has(x', y') && (y' < y || (y' < y + d && x' < x)))
  }

  lemma SplitGrows(out: seq<Rect>, r: Rect, x: int, y: int, d: int)
    requires d > 0 && r.x0 <= x < r.x1 && r.y0 <= y < r.y1 && PiecesOf(out, r, d) && SplitUpTo(out, r, x, y, d)
    ensures var p := Corners(x, y, Min(x + d, r.x1), Min(y + d, r.y1)).Intersect(r);
            PiecesOf(out + [p], r, d) && SplitUpTo(out + [p], r, x + d, y, d)
  {
    var p := Corners(x, y, Min(x + d, r.x1), Min(y + d, r.y1)).Intersect(r);
    assert p == Rect(x, y, Min(x + d, r.x1), Min(y + d, r.y1));
    CountAppend(out, p);
    hide Count;
  }

  lemma SplitNextBand(out: seq<Rect>, r: Rect, x: int, y: int, d: int)
    requires d > 0 && r.x1 <= x && SplitUpTo(out, r, x, y, d)
    ensures SplitUpTo(out, r, r.x0, y + d, d)
  {
  }

  lemma SplitEnds(out: seq<Rect>, r: Rect, x: int, y: int, d: int)
    requires r.y1 <= y && SplitUpTo(out, r, x, y, d)
    ensures Disjoint(out) && forall x', y' :: Count(out, x', y') == Bit(r.Has(x', y'))
  {
    CountDisjoint(out);
  }

  /** Pieces of at most maxDim per side. */
  method SplitRect(r: Rect, maxDim: int) returns (out: seq<Rect>)
    requires maxDim > 0
    ensures forall x, y :: Count(out, x, y) == Bit(r.Has(x, y))
    ensures Disjoint(out)
    ensures PiecesOf(out, r, maxDim)
  {
    out := [];
    assert PiecesOf(out, r, maxDim) && SplitUpTo(out, r, r.x0, r.y0, maxDim);
    hide SplitUpTo, PiecesOf, Disjoint;
    var y := r.y0;
    while y < r.y1
      invariant r.y0 <= y && PiecesOf(out, r, maxDim) && SplitUpTo(out, r, r.x0, y, maxDim)
    {
      var x := r.x0;
      while x < r.x1
        invariant r.x0 <= x && PiecesOf(out, r, maxDim) && SplitUpTo(out, r, x, y, maxDim)
      {
        SplitGrows(out, r, x, y, maxDim);
        var piece := Corners(x, y, Min(x + maxDim, r.x1), Min(y + maxDim, r.y1)).Intersect(r);
        out := out + [piece];
        x := x + maxDim;
      }
      SplitNextBand(out, r, x, y, maxDim);
      y := y + maxDim;
    }
    SplitEnds(out, r, r.x0, y, maxDim);
  }

  /** Clipped tiles that count the dirty area before tile (i, j), each point once. */
  ghost predicate TilesSoFar(out: seq<Rect>, dirty: seq<bool>, w: nat, h: nat, i: int, j: int) {
    && GoodRects(out, w, h)
    && (forall k :: 0 <= k < |out| ==> out[k].Dx() <= TILE && out[k].Dy() <= TILE)
    && forall x, y :: Count(out, x, y) == Bit(DoneAt(dirty, w, h, i, j, x, y))
  }

  lemma TileAdds(out: seq<Rect>, dirty: seq<bool>, w: nat, h: nat, i: int, j: int)
    requires TilesSoFar(out, dirty, w, h, i, j) && 0 <= i < TilesFor(w) && 0 <= j < TilesFor(h) && TileBit(dirty, TilesFor(w), i, j)
    ensures TilesSoFar(out + [StripOf(i, i + 1, j, w, h)], dirty, w, h, i + 1, j)
  {
    CountAppend(out, StripOf(i, i + 1, j, w, h));
    StripAdvances(dirty, w, h, i, i + 1, j);
    hide Count, DoneAt;
  }

  lemma TileSkips(out: seq<Rect>, dirty: seq<bool>, w: nat, h: nat, i: int, j: int)
    requires TilesSoFar(out, dirty, w, h, i, j) && !TileBit(dirty, TilesFor(w), i, j)
    ensures TilesSoFar(out, dirty, w, h, i + 1, j)
  {
    SkipTile(dirty, w, h, i, j);
    hide Count, DoneAt;
  }

  lemma TileRow(out: seq<Rect>, dirty: seq<bool>, w: nat, h: nat, j: int)
    requires TilesSoFar(out, dirty, w, h, TilesFor(w), j) && 0 <= j
    ensures TilesSoFar(out, dirty, w, h, 0, j + 1)
  {
    RowDone(dirty, w, h, j);
    hide Count, DoneAt;
  }

  lemma NoTiles(dirty: seq<bool>, w: nat, h: nat)
    ensures TilesSoFar([], dirty, w, h, 0, 0)
  {
  }

  /** One rectangle per dirty tile, clipped to the canvas. */
  method LayerTileRects(dirty: seq<bool>, tx: nat, ty: nat, w: nat, h: nat) returns (out: seq<Rect>)
    requires tx == TilesFor(w) && ty == TilesFor(h) && |dirty| == tx * ty
    ensures forall x, y :: Count(out, x, y) == Bit(DirtyAt(dirty, w, h, x, y))
    ensures Disjoint(out)
    ensures GoodRects(out, w, h)
    ensures forall k :: 0 <= k < |out| ==> out[k].Dx() <= TILE && out[k].Dy() <= TILE
  {
    out := [];
    NoTiles(dirty, w, h);
    hide TilesSoFar, TileBit;
    var j := 0;
    while j < ty
      invariant 0 <= j <= ty && TilesSoFar(out, dirty, w, h, 0, j)
    {
      var i := 0;
      while i < tx
        invariant 0 <= i <= tx && TilesSoFar(out, dirty, w, h, i, j)
      {
        BitAt(dirty, tx, ty, i, j);
        if dirty[TileAt(i, j, tx, ty)] {
          TileAdds(out, dirty, w, h, i, j);
          out := out + [Corners(i * TILE, j * TILE, Min((i + 1) * TILE, w), Min((j + 1) * TILE, h))];
        } else {
          TileSkips(out, dirty, w, h, i, j);
        }
        i := i + 1;
      }
      TileRow(out, dirty, w, h, j);
      j := j + 1;
    }
    TilesEnd(out, dirty, w, h);
  }

  lemma BitAt(dirty: seq<bool>, tx: int, ty: int, i: int, j: int)
    requires 0 <= i < tx && 0 <= j < ty && |dirty| == tx * ty
    ensures TileBit(dirty, tx, i, j) <==> dirty[TileAt(i, j, tx, ty)]
  {
  }

  lemma TilesEnd(out: seq<Rect>, dirty: seq<bool>, w: nat, h: nat)
    requires TilesSoFar(out, dirty, w, h, 0, TilesFor(h))
    ensures forall x, y :: Count(out, x, y) == Bit(DirtyAt(dirty, w, h, x, y))
    ensures Disjoint(out) && GoodRects(out, w, h) && forall k :: 0 <= k < |out| ==> out[k].Dx() <= TILE && out[k].Dy() <= TILE
  {
    AllDone(dirty, w, h);
    CountDisjoint(out);
    hide Count, DoneAt;
  }
}
