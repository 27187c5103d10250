/** Merging dirty tiles into rectangles: runs of tiles in a row, equal runs of consecutive
    rows stacked into one rectangle. */
module Merge {
  import opened Geometry
  import opened Tiles

  // ---- the result ----

  ghost predicate CleanBeside(dirty: seq<bool>, w: nat, h: nat, x0: int, x1: int, y: int) {
    !DirtyAt(dirty, w, h, x0 - 1, y) && !DirtyAt(dirty, w, h, x1, y)
  }

  /** No dirty point lies directly left or right of the rectangle: its rows are whole runs. */
  ghost predicate Edged(dirty: seq<bool>, w: nat, h: nat, r: Rect) {
    forall y :: r.y0 <= y < r.y1 ==> CleanBeside(dirty, w, h, r.x0, r.x1, y)
  }

  /** An entry whose x1 is -1 has been used up. */
  predicate Live(r: Rect) {
    r.x1 != -1
  }

  predicate Stacks(upper: Rect, lower: Rect) {
    Live(upper) && Live(lower) && upper.x0 == lower.x0 && upper.x1 == lower.x1 && upper.y1 == lower.y0
  }

  ghost predicate Unstacked(upper: seq<Rect>, lower: seq<Rect>) {
    forall k, l :: 0 <= k < |upper| && 0 <= l < |lower| ==> !Stacks(upper[k], lower[l])
  }

  ghost predicate AllEdged(dirty: seq<bool>, w: nat, h: nat, rs: seq<Rect>) {
    forall k :: 0 <= k < |rs| && Live(rs[k]) ==> Edged(dirty, w, h, rs[k])
  }

  /** A partition of the dirty area into whole runs, no two of which could be stacked. */
  ghost predicate IsMerged(dirty: seq<bool>, w: nat, h: nat, rs: seq<Rect>) {
    && GoodRects(rs, w, h)
    && (forall x, y :: Count(rs, x, y) == Bit(DirtyAt(dirty, w, h, x, y)))
    && AllEdged(dirty, w, h, rs) && Unstacked(rs, rs)
  }

  // ---- between two tiles ----

  ghost predicate OpenRects(rs: seq<Rect>, w: nat, h: nat, y: int) {
    forall k :: 0 <= k < |rs| ==>
                  if !Live(rs[k]) then rs[k].x0 >= 0 else !rs[k].Empty() && rs[k].Within(w, h) && rs[k].y1 == y
  }

  ghost predicate EndsBefore(rs: seq<Rect>, y: int) {
    forall k :: 0 <= k < |rs| ==> rs[k].y1 < y
  }

  /** What is counted so far is the dirty area before tile (i, j). */
  ghost predicate Sums(done: seq<Rect>, open: seq<Rect>, next: seq<Rect>, dirty: seq<bool>, w: nat, h: nat, i: int, j: int) {
    forall x, y :: Count(done, x, y) + Count(open, x, y) + Count(next, x, y) == Bit(DoneAt(dirty, w, h, i, j, x, y))
  }

  /** Finished rectangles end above this row, open ones on its top line, next ones on its bottom line. */
  ghost predicate Lines(done: seq<Rect>, open: seq<Rect>, next: seq<Rect>, w: nat, h: nat, j: int) {
    && GoodRects(done, w, h) && EndsBefore(done, j * TILE)
    && OpenRects(open, w, h, Min(j * TILE, h))
    && GoodRects(next, w, h) && OpenRects(next, w, h, Min((j + 1) * TILE, h))
  }

  ghost predicate Apart(done: seq<Rect>, open: seq<Rect>, next: seq<Rect>) {
    Unstacked(done, done) && Unstacked(done, open) && Unstacked(done, next) && Unstacked(open, next)
  }

  ghost predicate Edges(done: seq<Rect>, open: seq<Rect>, next: seq<Rect>, dirty: seq<bool>, w: nat, h: nat) {
    AllEdged(dirty, w, h, done) && AllEdged(dirty, w, h, open) && AllEdged(dirty, w, h, next)
  }

  ghost predicate RowState(done: seq<Rect>, open: seq<Rect>, next: seq<Rect>, dirty: seq<bool>, w: nat, h: nat, i: int, j: int) {
    && Sums(done, open, next, dirty, w, h, i, j) && Lines(done, open, next, w, h, j)
    && Apart(done, open, next) && Edges(done, open, next, dirty, w, h)
  }

  lemma Starts(dirty: seq<bool>, w: nat, h: nat)
    ensures RowState([], [], [], dirty, w, h, 0, 0)
  {
  }

  lemma Skips(done: seq<Rect>, open: seq<Rect>, next: seq<Rect>, dirty: seq<bool>, w: nat, h: nat, i: int, j: int)
    requires RowState(done, open, next, dirty, w, h, i, j) && !TileBit(dirty, TilesFor(w), i, j)
    ensures RowState(done, open, next, dirty, w, h, i + 1, j)
  {
  }

  // ---- one run ----

  /** Tiles s .. e-1 of row j are a whole run of dirty tiles. */
  ghost predicate IsRun(dirty: seq<bool>, w: nat, s: int, e: int, j: int) {
    && 0 <= s < e <= TilesFor(w)
    && (forall i :: s <= i < e ==> TileBit(dirty, TilesFor(w), i, j))
    && !TileBit(dirty, TilesFor(w), s - 1, j) && !TileBit(dirty, TilesFor(w), e, j)
  }

  lemma RunIsEdged(dirty: seq<bool>, w: nat, h: nat, s: int, e: int, j: int)
    requires IsRun(dirty, w, s, e, j)
    ensures Edged(dirty, w, h, StripOf(s, e, j, w, h))
  {
  }

  /** The rectangle an open one becomes when the strip is hung below it. */
  function Grown(o: Rect, strip: Rect): Rect {
    o.(y1 := strip.y1)
  }

  lemma GrownIsEdged(dirty: seq<bool>, w: nat, h: nat, o: Rect, strip: Rect)
    requires Edged(dirty, w, h, o) && Edged(dirty, w, h, strip) && o.x0 == strip.x0 && o.x1 == strip.x1 && o.y1 == strip.y0
    ensures Edged(dirty, w, h, Grown(o, strip))
  {
  }

  lemma ExtendSums(done: seq<Rect>, open: seq<Rect>, next: seq<Rect>, dirty: seq<bool>, w: nat, h: nat, s: int, e: int, j: int, k: nat)
    requires Sums(done, open, next, dirty, w, h, s, j) && IsRun(dirty, w, s, e, j) && 0 <= j < TilesFor(h)
    requires k < |open| && !open[k].Empty() && open[k].Within(w, h) && open[k].y0 < j * TILE
    requires Stacks(open[k], StripOf(s, e, j, w, h))
    ensures Sums(done, open[k := open[k].(x1 := -1)], next + [Grown(open[k], StripOf(s, e, j, w, h))], dirty, w, h, e, j)
  {
    var o, strip := open[k], StripOf(s, e, j, w, h);
    StripAdvances(dirty, w, h, s, e, j);
    CountAppend(next, Grown(o, strip));
    CountUpdate(open, k, o.(x1 := -1));
    assert forall x, y :: Bit(Grown(o, strip).Has(x, y)) == Bit(o.Has(x, y)) + Bit(strip.Has(x, y));
    assert forall x, y :: !o.(x1 := -1).Has(x, y);
    hide Count, DoneAt, Grown, StripOf;
  }

  lemma AddSums(done: seq<Rect>, open: seq<Rect>, next: seq<Rect>, dirty: seq<bool>, w: nat, h: nat, s: int, e: int, j: int)
    requires Sums(done, open, next, dirty, w, h, s, j) && IsRun(dirty, w, s, e, j) && 0 <= j < TilesFor(h)
    ensures Sums(done, open, next + [StripOf(s, e, j, w, h)], dirty, w, h, e, j)
  {
    StripAdvances(dirty, w, h, s, e, j);
    CountAppend(next, StripOf(s, e, j, w, h));
    hide Count, DoneAt, StripOf;
  }

  lemma ExtendApart(done: seq<Rect>, open: seq<Rect>, next: seq<Rect>, strip: Rect, k: nat, y: int)
    requires Apart(done, open, next) && k < |open| && Stacks(open[k], strip)
    requires forall l :: 0 <= l < |open| && Live(open[l]) ==> !open[l].Empty() && open[l].y1 == y
    ensures Apart(done, open[k := open[k].(x1 := -1)], next + [Grown(open[k], strip)])
  {
  }

  lemma AddApart(done: seq<Rect>, open: seq<Rect>, next: seq<Rect>, strip: Rect)
    requires Apart(done, open, next) && EndsBefore(done, strip.y0)
    requires forall l :: 0 <= l < |open| ==> !Stacks(open[l], strip)
    ensures Apart(done, open, next + [strip])
  {
  }

  lemma ExtendLines(done: seq<Rect>, open: seq<Rect>, next: seq<Rect>, w: nat, h: nat, s: int, e: int, j: int, k: nat)
    requires Lines(done, open, next, w, h, j) && 0 <= j < TilesFor(h) && 0 <= s < e <= TilesFor(w)
    requires k < |open| && Stacks(open[k], StripOf(s, e, j, w, h))
    ensures Lines(done, open[k := open[k].(x1 := -1)], next + [Grown(open[k], StripOf(s, e, j, w, h))], w, h, j)
  {
  }

  lemma AddLines(done: seq<Rect>, open: seq<Rect>, next: seq<Rect>, w: nat, h: nat, s: int, e: int, j: int)
    requires Lines(done, open, next, w, h, j) && 0 <= j < TilesFor(h) && 0 <= s < e <= TilesFor(w)
    ensures Lines(done, open, next + [StripOf(s, e, j, w, h)], w, h, j)
  {
  }

  lemma Extends(done: seq<Rect>, open: seq<Rect>, next: seq<Rect>, dirty: seq<bool>, w: nat, h: nat, s: int, e: int, j: int, k: nat)
    requires RowState(done, open, next, dirty, w, h, s, j) && IsRun(dirty, w, s, e, j) && 0 <= j < TilesFor(h)
    requires k < |open| && Stacks(open[k], StripOf(s, e, j, w, h))
    ensures RowState(done, open[k := open[k].(x1 := -1)], next + [Grown(open[k], StripOf(s, e, j, w, h))], dirty, w, h, e, j)
  {
    var strip := StripOf(s, e, j, w, h);
    ExtendLines(done, open, next, w, h, s, e, j, k);
    ExtendSums(done, open, next, dirty, w, h, s, e, j, k);
    ExtendApart(done, open, next, strip, k, j * TILE);
    RunIsEdged(dirty, w, h, s, e, j);
    GrownIsEdged(dirty, w, h, open[k], strip);
    hide Sums, Lines, Apart, Edged, Grown, StripOf;
  }

  lemma Adds(done: seq<Rect>, open: seq<Rect>, next: seq<Rect>, dirty: seq<bool>, w: nat, h: nat, s: int, e: int, j: int)
    requires RowState(done, open, next, dirty, w, h, s, j) && IsRun(dirty, w, s, e, j) && 0 <= j < TilesFor(h)
    requires forall l :: 0 <= l < |open| ==> !Stacks(open[l], StripOf(s, e, j, w, h))
    ensures RowState(done, open, next + [StripOf(s, e, j, w, h)], dirty, w, h, e, j)
  {
    AddLines(done, open, next, w, h, s, e, j);
    AddSums(done, open, next, dirty, w, h, s, e, j);
    AddApart(done, open, next, StripOf(s, e, j, w, h));
    RunIsEdged(dirty, w, h, s, e, j);
    hide Sums, Lines, Apart, Edged, StripOf;
  }

  /** One run of dirty tiles: extend the open rectangle with the same columns, or start one. */
  method AddStrip(ghost done: seq<Rect>, open: seq<Rect>, next: seq<Rect>, ghost dirty: seq<bool>, s: int, e: int, j: int, w: nat, h: nat)
    returns (open': seq<Rect>, next': seq<Rect>)
    requires RowState(done, open, next, dirty, w, h, s, j) && IsRun(dirty, w, s, e, j) && 0 <= j < TilesFor(h)
    ensures RowState(done, open', next', dirty, w, h, e, j)
  {
    hide RowState, IsRun;
    var strip := StripOf(s, e, j, w, h);
    open', next' := open, next;
    var k := 0;
    while k < |open|
      invariant 0 <= k <= |open| && open' == open && next' == next
      invariant forall l :: 0 <= l < k ==> !Stacks(open[l], strip)
    {
      var o := open[k];
      if o.x0 == strip.x0 && o.x1 == strip.x1 && o.y1 == strip.y0 {
        assert Stacks(o, strip) by { StripIsLive(s, e, j, w, h, dirty); }
        Extends(done, open, next, dirty, w, h, s, e, j, k);
        next' := next + [Grown(o, strip)];
        open' := open[k := o.(x1 := -1)];
        return;
      }
      k := k + 1;
    }
    Adds(done, open, next, dirty, w, h, s, e, j);
    next' := next + [strip];
  }

  lemma StripIsLive(s: int, e: int, j: int, w: nat, h: nat, dirty: seq<bool>)
    requires IsRun(dirty, w, s, e, j)
    ensures Live(StripOf(s, e, j, w, h))
  {
  }

  // ---- end of a row ----

  /** Each is an old one or a live open one. */
  ghost predicate FromBoth(done': seq<Rect>, done: seq<Rect>, open: seq<Rect>) {
    forall k :: 0 <= k < |done'| ==> done'[k] in done || (done'[k] in open && Live(done'[k]))
  }

  lemma CloseCounts(done: seq<Rect>, done': seq<Rect>, open: seq<Rect>, k: nat, w: nat, h: nat, y: int)
    requires k < |open| && OpenRects(open, w, h, y)
    requires forall x, y :: Count(done', x, y) == Count(done, x, y) + Count(open[..k], x, y)
    ensures var more := if Live(open[k]) then done' + [open[k]] else done';
            forall x, y :: Count(more, x, y) == Count(done, x, y) + Count(open[..k + 1], x, y)
  {
    CountAppend(done', open[k]);
    CountAppend(open[..k], open[k]);
    assert open[..k + 1] == open[..k] + [open[k]];
    assert forall x, y :: !Live(open[k]) ==> !open[k].Has(x, y);
    hide Count;
  }

  /** Rectangles of the previous row that were not extended are finished. */
  method CloseRow(done: seq<Rect>, open: seq<Rect>, ghost w: nat, ghost h: nat, ghost y0: int) returns (done': seq<Rect>)
    requires OpenRects(open, w, h, y0)
    ensures FromBoth(done', done, open)
    ensures forall x, y :: Count(done', x, y) == Count(done, x, y) + Count(open, x, y)
  {
    hide OpenRects, Count;
    done' := done;
    var k := 0;
    CountNone();
    while k < |open|
      invariant 0 <= k <= |open| && FromBoth(done', done, open)
      invariant forall x, y :: Count(done', x, y) == Count(done, x, y) + Count(open[..k], x, y)
    {
      CloseCounts(done, done', open, k, w, h, y0);
      if open[k].x1 != -1 {
        done' := done' + [open[k]];
      }
      k := k + 1;
    }
    assert open[..k] == open;
  }

  lemma CountNone()
    ensures forall x, y :: Count([], x, y) == 0
  {
  }

  lemma Closes(done: seq<Rect>, done': seq<Rect>, open: seq<Rect>, next: seq<Rect>, dirty: seq<bool>, w: nat, h: nat, j: int)
    requires RowState(done, open, next, dirty, w, h, TilesFor(w), j) && 0 <= j < TilesFor(h)
    requires FromBoth(done', done, open)
    requires forall x, y :: Count(done', x, y) == Count(done, x, y) + Count(open, x, y)
    ensures RowState(done', next, [], dirty, w, h, 0, j + 1)
  {
  }

  lemma OpenLine(done: seq<Rect>, open: seq<Rect>, next: seq<Rect>, dirty: seq<bool>, w: nat, h: nat, i: int, j: int)
    requires RowState(done, open, next, dirty, w, h, i, j)
    ensures OpenRects(open, w, h, Min(j * TILE, h))
  {
  }

  lemma LastOpenApart(done: seq<Rect>, open: seq<Rect>, w: nat, h: nat, j: int)
    requires Apart(done, open, []) && Lines(done, open, [], w, h, j) && j * TILE >= h && GoodRects(open, w, h)
    ensures Unstacked(done + open, done + open)
  {
  }

  lemma Finishes(done: seq<Rect>, open: seq<Rect>, dirty: seq<bool>, w: nat, h: nat)
    requires RowState(done, open, [], dirty, w, h, 0, TilesFor(h)) && GoodRects(open, w, h)
    ensures IsMerged(dirty, w, h, done + open)
  {
    CountConcat(done, open);
    CountNone();
    AllDone(dirty, w, h);
    LastOpenApart(done, open, w, h, TilesFor(h));
    hide Count, DoneAt, DirtyAt, Edged, Apart, OpenRects, EndsBefore;
  }

  /** The run that starts at s: the tile before it is clean and so is the one after it. */
  method FindRun(dirty: seq<bool>, tx: nat, ty: nat, w: nat, s: int, j: int) returns (i: int)
    requires tx == TilesFor(w) && |dirty| == tx * ty && 0 <= s < tx && 0 <= j < ty
    requires TileBit(dirty, tx, s, j) && !TileBit(dirty, tx, s - 1, j)
    ensures IsRun(dirty, w, s, i, j)
  {
    i := s;
    while i < tx && dirty[TileAt(i, j, tx, ty)]
      invariant s <= i <= tx && (i == s ==> s < tx && dirty[TileAt(s, j, tx, ty)])
      invariant forall i' :: s <= i' < i ==> TileBit(dirty, tx, i', j)
    {
      TileIndex(i, j, tx, ty);
      i := i + 1;
    }
  }

  /** Dirty rows of tiles become strips, equal strips of consecutive rows one rectangle. */
  method MergeDirty(dirty: seq<bool>, tx: nat, ty: nat, w: nat, h: nat) returns (rects: seq<Rect>)
    requires tx == TilesFor(w) && ty == TilesFor(h) && |dirty| == tx * ty
    ensures IsMerged(dirty, w, h, rects)
    ensures GoodRects(rects, w, h)
    ensures Disjoint(rects)
    ensures forall x, y :: Count(rects, x, y) == Bit(DirtyAt(dirty, w, h, x, y))
  {
    hide RowState, IsRun;
    var done: seq<Rect>, open: seq<Rect> := [], [];
    Starts(dirty, w, h);
    var j := 0;
    while j < ty
      invariant 0 <= j <= ty && GoodRects(open, w, h)
      invariant RowState(done, open, [], dirty, w, h, 0, j)
    {
      var next: seq<Rect> := [];
      var i := 0;
      OpenLine(done, open, next, dirty, w, h, 0, j);
      while i < tx
        invariant 0 <= i <= tx
        invariant !TileBit(dirty, tx, i - 1, j) || !TileBit(dirty, tx, i, j)
        invariant RowState(done, open, next, dirty, w, h, i, j)
      {
        TileIndex(i, j, tx, ty);
        if !dirty[j * tx + i] {
          Skips(done, open, next, dirty, w, h, i, j);
          i := i + 1;
          continue;
        }
        var s := i;
        i := FindRun(dirty, tx, ty, w, s, j);
        open, next := AddStrip(done, open, next, dirty, s, i, j, w, h);
        RunEnds(dirty, w, s, i, j);
      }
      OpenLine(done, open, next, dirty, w, h, tx, j);
      var done' := CloseRow(done, open, w, h, Min(j * TILE, h));
      Closes(done, done', open, next, dirty, w, h, j);
      NextIsGood(done, open, next, dirty, w, h, tx, j);
      done, open := done', next;
      j := j + 1;
    }
    rects := done + open;
    Finishes(done, open, dirty, w, h);
    CountDisjoint(rects);
  }

  lemma RunEnds(dirty: seq<bool>, w: nat, s: int, e: int, j: int)
    requires IsRun(dirty, w, s, e, j)
    ensures 0 <= s < e <= TilesFor(w) && !TileBit(dirty, TilesFor(w), e, j)
  {
  }

  lemma NextIsGood(done: seq<Rect>, open: seq<Rect>, next: seq<Rect>, dirty: seq<bool>, w: nat, h: nat, i: int, j: int)
    requires RowState(done, open, next, dirty, w, h, i, j)
    ensures GoodRects(next, w, h)
  {
  }

  // ---- there is only one such merge ----

  lemma Covers(dirty: seq<bool>, w: nat, h: nat, rs: seq<Rect>, x: int, y: int) returns (k: nat)
    requires IsMerged(dirty, w, h, rs) && DirtyAt(dirty, w, h, x, y)
    ensures k < |rs| && rs[k].Has(x, y)
  {
    CountPositive(rs, x, y);
    k :| 0 <= k < |rs| && rs[k].Has(x, y);
  }

  lemma InsideIsDirty(dirty: seq<bool>, w: nat, h: nat, rs: seq<Rect>, k: nat, x: int, y: int)
    requires IsMerged(dirty, w, h, rs) && k < |rs| && rs[k].Has(x, y)
    ensures DirtyAt(dirty, w, h, x, y)
  {
    CountPositive(rs, x, y);
    assert InSome(rs, x, y);
    assert Count(rs, x, y) == Bit(DirtyAt(dirty, w, h, x, y));
  }

  /** Rectangles of two merges that share a point have the same columns. */
  lemma SameColumns(dirty: seq<bool>, w: nat, h: nat, a: seq<Rect>, b: seq<Rect>, k: nat, l: nat, x: int, y: int)
    requires IsMerged(dirty, w, h, a) && IsMerged(dirty, w, h, b) && k < |a| && l < |b|
    requires a[k].Has(x, y) && b[l].Has(x, y)
    ensures a[k].x0 == b[l].x0 && a[k].x1 == b[l].x1
  {
    var r, s := a[k], b[l];
    assert Edged(dirty, w, h, r) && Edged(dirty, w, h, s);
    assert CleanBeside(dirty, w, h, r.x0, r.x1, y) && CleanBeside(dirty, w, h, s.x0, s.x1, y);
    hide IsMerged, DirtyAt, Edged;
    if s.x0 < r.x0 {
      InsideIsDirty(dirty, w, h, b, l, r.x0 - 1, y);
    } else if r.x0 < s.x0 {
      InsideIsDirty(dirty, w, h, a, k, s.x0 - 1, y);
    }
    if r.x1 < s.x1 {
      InsideIsDirty(dirty, w, h, b, l, r.x1, y);
    } else if s.x1 < r.x1 {
      InsideIsDirty(dirty, w, h, a, k, s.x1, y);
    }
  }

  /** Only one rectangle of a merge contains a point. */
  lemma OnlyOne(dirty: seq<bool>, w: nat, h: nat, rs: seq<Rect>, k: nat, l: nat, x: int, y: int)
    requires IsMerged(dirty, w, h, rs) && k < |rs| && l < |rs| && rs[k].Has(x, y) && rs[l].Has(x, y)
    ensures k == l
  {
    CountDisjoint(rs);
    hide IsMerged;
  }

  lemma NotStacked(dirty: seq<bool>, w: nat, h: nat, rs: seq<Rect>, k: nat, l: nat)
    requires IsMerged(dirty, w, h, rs) && k < |rs| && l < |rs|
    ensures !(rs[k].x0 == rs[l].x0 && rs[k].x1 == rs[l].x1 && rs[k].y1 == rs[l].y0)
  {
  }

  /** Were the rectangle of b to begin higher, a would have one that ends where its own
      begins, with the same columns: those two would have been stacked. */
  lemma TopNotHigher(dirty: seq<bool>, w: nat, h: nat, a: seq<Rect>, b: seq<Rect>, k: nat, l: nat, x: int, y: int)
    requires IsMerged(dirty, w, h, a) && IsMerged(dirty, w, h, b) && k < |a| && l < |b|
    requires a[k].Has(x, y) && b[l].Has(x, y)
    ensures a[k].y0 <= b[l].y0
  {
    SameColumns(dirty, w, h, a, b, k, l, x, y);
    if b[l].y0 < a[k].y0 {
      var top := a[k].y0;
      InsideIsDirty(dirty, w, h, b, l, x, top - 1);
      var m := Covers(dirty, w, h, a, x, top - 1);
      SameColumns(dirty, w, h, a, b, m, l, x, top - 1);
      if a[m].y1 > top {
        OnlyOne(dirty, w, h, a, k, m, x, top);
      }
      NotStacked(dirty, w, h, a, m, k);
    }
  }

  lemma BottomNotLower(dirty: seq<bool>, w: nat, h: nat, a: seq<Rect>, b: seq<Rect>, k: nat, l: nat, x: int, y: int)
    requires IsMerged(dirty, w, h, a) && IsMerged(dirty, w, h, b) && k < |a| && l < |b|
    requires a[k].Has(x, y) && b[l].Has(x, y)
    ensures b[l].y1 <= a[k].y1
  {
    SameColumns(dirty, w, h, a, b, k, l, x, y);
    if a[k].y1 < b[l].y1 {
      var end := a[k].y1;
      InsideIsDirty(dirty, w, h, b, l, x, end);
      var m := Covers(dirty, w, h, a, x, end);
      SameColumns(dirty, w, h, a, b, m, l, x, end);
      if a[m].y0 < end {
        OnlyOne(dirty, w, h, a, k, m, x, end - 1);
      }
      NotStacked(dirty, w, h, a, k, m);
    }
  }

  /** The rectangles are determined by the mask: any two merges have the same ones. */
  lemma MergeIsUnique(dirty: seq<bool>, w: nat, h: nat, a: seq<Rect>, b: seq<Rect>)
    requires IsMerged(dirty, w, h, a) && IsMerged(dirty, w, h, b)
    ensures forall k :: 0 <= k < |a| ==> a[k] in b
  {
    forall k | 0 <= k < |a|
      ensures a[k] in b
    {
      var x, y := a[k].x0, a[k].y0;
      InsideIsDirty(dirty, w, h, a, k, x, y);
      var l := Covers(dirty, w, h, b, x, y);
      SameColumns(dirty, w, h, a, b, k, l, x, y);
      TopNotHigher(dirty, w, h, a, b, k, l, x, y);
      TopNotHigher(dirty, w, h, b, a, l, k, x, y);
      BottomNotLower(dirty, w, h, a, b, k, l, x, y);
      BottomNotLower(dirty, w, h, b, a, l, k, x, y);
    }
  }
}
