/** Runs under the capture source's promise. Each hint covers the change since the capture
    before it; which turns work for a layer is then a matter of rectangles alone. */
module History {
  import opened Geometry
  import opened Raster
  import opened Tiles
  import opened Hint
  import opened Scaler
  import opened Skipped
  import opened Pipe
  import Jobs
  import Viewer
  import Scale
  import Weighing

  /** A capture differs from the one before it at most inside its hint. */
  ghost predicate Promised(s: Sys, a: Action) {
    a.Turn? ==> HintCovers(s.lastSrc, a.img, a.hint)
  }

  function MissedOf(s: Sys, id: int): Option<seq<Rect>> {
    if id in s.missed then s.missed[id] else None
  }

  /** Every destination is scaled afresh, or has its tile compared: enough for a layer that
      may have missed anything. */
  ghost predicate FreshAll(rects: seq<Rect>, sw: nat, sh: nat, width: int) {
    sw > 0 && sh > 0 ==>
      forall dx, dy :: 0 <= dx < FrameW(sw, sh, width) && 0 <= dy < FrameH(sw, sh, width) ==> FreshAt(rects, sw, sh, width, dx, dy)
  }

  ghost predicate MarkedAll(rects: seq<Rect>, sw: nat, sh: nat, width: int) {
    sw > 0 && sh > 0 ==>
      forall dx, dy :: 0 <= dx < FrameW(sw, sh, width) && 0 <= dy < FrameH(sw, sh, width) ==> MarkedAt(rects, sw, sh, width, dx, dy)
  }

  /** The scaler's old output is used: the hint must scale afresh what the layer missed. */
  ghost predicate ScaleReached(s: Sys, st: Layer, img: Img, hint: SrcHint, width: int) {
    hint.ok && Uses(st.cache, img, width) ==>
      match MissedOf(s, st.id)
      case Some(ms) => KeySafe(ms, hint.rects, img.w, img.h, width)
      case None => FreshAll(hint.rects, img.w, img.h, width)
  }

  /** The frame is compared: the hint must reach the tiles of what the layer missed. A layer
      that needs a key compares nothing. */
  ghost predicate DiffReached(s: Sys, st: Layer, img: Img, hint: SrcHint, width: int)
    requires img.Valid()
  {
    hint.ok && st.prev.Some? && !NeedsKey(st, FullScale(img, width)) ==>
      match MissedOf(s, st.id)
      case Some(ms) => MarkSafe(ms, hint.rects, img.w, img.h, width)
      case None => MarkedAll(hint.rects, img.w, img.h, width)
  }

  /** The turn's hint reaches what the layers it changes have missed; tiles matter in tile
      mode only. */
  ghost predicate TurnReaches(s: Sys, a: Action, s': Sys)
    requires Shape(s) && a.Turn? && IsTurn(s, a, s')
  {
    forall k :: 0 <= k < |s.layers| && s'.layers[k] != s.layers[k] ==>
                  && ScaleReached(s, s.layers[k], a.img, a.hint, a.widths[k])
                  && (!s.active && !a.now ==> DiffReached(s, s.layers[k], a.img, a.hint, a.widths[k]))
  }

  /** The latest capture differs from the layer's last processed one at most inside `missed`. */
  ghost predicate LayerMissed(s: Sys, st: Layer)
    requires Shape(s) && LayerOK(st)
  {
    st.seen.Some? ==>
      && s.lastSrc.Some?
      && (MissedOf(s, st.id).Some? ==> AgreeOutside(st.seen.value, s.lastSrc.value, MissedOf(s, st.id).value))
  }

  ghost predicate MissedOK(s: Sys)
    requires Shape(s)
  {
    forall k :: 0 <= k < |s.layers| ==> LayerMissed(s, s.layers[k])
  }

  // ---- the book-keeping is right ----

  lemma AgreeChain(a: Img, b: Img, c: Img, m: seq<Rect>, h: seq<Rect>)
    requires AgreeOutside(a, b, m) && AgreeOutside(b, c, h)
    ensures AgreeOutside(a, c, m + h)
  {
    forall x, y | !InSome(m + h, x, y)
      ensures AgreeAt(a, c, x, y)
    {
      InConcat(m, h, x, y);
      assert AgreeAt(a, b, x, y) && AgreeAt(b, c, x, y);
    }
  }

  lemma AgreeSelf(a: Img)
    requires a.Valid()
    ensures AgreeOutside(a, a, [])
  {
  }

  /** A turn either shows the layer this capture or leaves what it saw. */
  lemma SeenAfter(st: Layer, st': Layer, was: bool, now: bool, img: Img, h: SrcHint, width: int, job: Option<Jobs.LayerJob>)
    requires img.Valid() && LayerOK(st) && Outcome(st, st', was, now, img, h, width, job)
    ensures st'.id == st.id && (st'.seen == Some(img) || st'.seen == st.seen)
  {
    hide IsScale, IsFrameDiff, NextCache;
  }

  lemma TurnMissed(s: Sys, a: Action, s': Sys, k: nat)
    requires Shape(s) && MissedOK(s) && a.Turn? && IsTurn(s, a, s') && Promised(s, a) && Shape(s') && k < |s.layers|
    ensures LayerMissed(s', s'.layers[k])
  {
    var st, st' := s.layers[k], s'.layers[k];
    SeenAfter(st, st', s.active, a.now, a.img, a.hint, a.widths[k], At(a.jobs, st.id));
    assert LayerMissed(s, st);
    hide Outcome, LayerOK, AgreeOutside, HintCovers;
    if SeenNow(s'.layers, st.id, a.img) {
      var m :| 0 <= m < |s'.layers| && s'.layers[m].id == st.id && s'.layers[m].seen == Some(a.img);
      OneId(s', m, k);
      AgreeSelf(a.img);
    } else if st'.seen.Some? && MissedOf(s', st.id).Some? {
      PromisedPair(s, a);
      AgreeChain(st.seen.value, s.lastSrc.value, a.img, MissedOf(s, st.id).value, a.hint.rects);
    }
  }

  lemma OneId(s: Sys, k: nat, l: nat)
    requires Shape(s) && k < |s.layers| && l < |s.layers| && s.layers[k].id == s.layers[l].id
    ensures k == l
  {
  }

  lemma PromisedPair(s: Sys, a: Action)
    requires Shape(s) && a.Turn? && a.img.Valid() && Promised(s, a) && a.hint.ok && s.lastSrc.Some? && SameSize(s.lastSrc.value, a.img)
    ensures AgreeOutside(s.lastSrc.value, a.img, a.hint.rects)
  {
  }

  lemma UpdateMissed(s: Sys, next: seq<Layer>, s': Sys)
    requires Shape(s) && MissedOK(s) && Step(s, LayerUpdate(next), s') && Shape(s')
    ensures MissedOK(s')
  {
    hide LayerOK, AgreeOutside;
    forall k | 0 <= k < |next|
      ensures LayerMissed(s', next[k])
    {
      assert ComesFrom(s.layers, next[k]);
      var st: Option<Layer>, key :| next[k] == Updated(st, next[k].id, next[k].width, key)
                                    && (st.Some? ==> st.value in s.layers && st.value.id == next[k].id);
      if st.Some? {
        var m :| 0 <= m < |s.layers| && s.layers[m] == st.value;
        assert LayerMissed(s, s.layers[m]);
      }
    }
  }

  lemma StepKeepsMissed(s: Sys, a: Action, s': Sys)
    requires Shape(s) && MissedOK(s) && Step(s, a, s') && Promised(s, a) && Shape(s')
    ensures MissedOK(s')
  {
    if a.Turn? {
      forall k | 0 <= k < |s'.layers|
        ensures LayerMissed(s', s'.layers[k])
      {
        TurnMissed(s, a, s', k);
      }
    } else if a.LayerUpdate? {
      UpdateMissed(s, a.next, s');
    } else {
      hide AgreeOutside;
      assert s'.missed == s.missed && s'.lastSrc == s.lastSrc && |s'.layers| == |s.layers|;
      forall k | 0 <= k < |s'.layers|
        ensures LayerMissed(s', s'.layers[k])
      {
        assert LayerMissed(s, s.layers[k]);
        assert s'.layers[k].seen == s.layers[k].seen && s'.layers[k].id == s.layers[k].id;
      }
    }
  }

  // ---- a hint that reaches works ----

  lemma AllRefreshed(prev: Img, img: Img, rects: seq<Rect>, width: int, mask: seq<bool>)
    requires Shrinks(img, width) && prev.Valid() && img.Valid() && SameSize(prev, img) && FreshAll(rects, img.w, img.h, width)
    requires IsHintMask(rects, img.w, img.h, img.w, img.h, 0, mask)
    ensures Refreshed(prev, img, mask, TargetWidth(width), TargetHeight(img, width))
  {
    hide Recomputed, IsHintMask, Scale.ScaledPixel, FewFlags;
    if FewFlags(mask, img.w, img.h) {
      forall x, y | 0 <= x < TargetWidth(width) && 0 <= y < TargetHeight(img, width)
        ensures Recomputed(mask, img.w, img.h, TargetWidth(width), TargetHeight(img, width), x, y)
      {
        assert FreshAt(rects, img.w, img.h, width, x, y);
        assert Refreshes(rects, img.w, img.h, TargetWidth(width), TargetHeight(img, width), x, y);
      }
    }
  }

  lemma AllFreshWorks(st: Layer, img: Img, rects: seq<Rect>, width: int)
    requires LayerOK(st) && LayerTrue(st) && img.Valid() && img.w > 0 && img.h > 0 && FreshAll(rects, img.w, img.h, width)
    ensures ScaleWorks(st, img, SrcHint(true, rects), width)
  {
    hide FreshAll, FullScale, IsHintMask, Refreshed, LayerTrue;
    if Uses(st.cache, img, width) {
      forall mask | IsSrcMask(st.cache.value.src, img, SrcHint(true, rects), mask)
        ensures Refreshed(st.cache.value.src, img, mask, st.cache.value.dst.w, st.cache.value.dst.h)
      {
        AllRefreshed(st.cache.value.src, img, rects, width, mask);
      }
    }
  }

  lemma AllMarkedWorks(st: Layer, img: Img, rects: seq<Rect>, width: int)
    requires LayerOK(st) && img.Valid() && img.w > 0 && img.h > 0 && MarkedAll(rects, img.w, img.h, width)
    ensures DiffWorks(st, img, SrcHint(true, rects), width)
  {
    FrameSize(img, width);
    var frame := FullScale(img, width);
    hide Marked, FullScale;
    if st.prev.Some? && !NeedsKey(st, frame) {
      forall x, y | !AgreeAt(st.prev.value, frame, x, y)
        ensures Marked(rects, img.w, img.h, frame.w, frame.h, MarginFor(frame.w, frame.h, img.w, img.h), x / TILE, y / TILE)
      {
        assert MarkedAt(rects, img.w, img.h, width, x, y);
      }
    }
  }

  lemma FullHintWorks(st: Layer, img: Img, rects: seq<Rect>, width: int)
    requires LayerOK(st) && LayerTrue(st) && img.Valid() && img.w > 0 && img.h > 0
    requires forall x, y :: 0 <= x < img.w && 0 <= y < img.h ==> InSome(rects, x, y)
    ensures ScaleWorks(st, img, SrcHint(true, rects), width) && DiffWorks(st, img, SrcHint(true, rects), width)
  {
    hide LayerTrue, LayerOK, ScaleWorks, DiffWorks, FreshAt, MarkedAt;
    forall dx, dy | 0 <= dx < FrameW(img.w, img.h, width) && 0 <= dy < FrameH(img.w, img.h, width)
      ensures FreshAt(rects, img.w, img.h, width, dx, dy) && MarkedAt(rects, img.w, img.h, width, dx, dy)
    {
      FullHintReaches(rects, img.w, img.h, width, dx, dy);
    }
    AllFreshWorks(st, img, rects, width);
    AllMarkedWorks(st, img, rects, width);
  }

  /** Nothing hinted, or nothing seen or shown before: nothing to miss. */
  lemma PlainWorks(st: Layer, img: Img, h: SrcHint, width: int)
    requires LayerOK(st) && LayerTrue(st) && img.Valid() && (!h.ok || st.seen.None? || img.w == 0 || img.h == 0)
    ensures ScaleWorks(st, img, h, width) && DiffWorks(st, img, h, width)
  {
    assert HintSound(st.cache, img, width, h);
    SoundIsStaleFree(st.cache, img, width, h);
  }

  /** The layer's cache serves the call only if it was made at this call's width. */
  lemma CacheOfWidth(st: Layer, img: Img, width: int)
    requires LayerOK(st) && LayerTrue(st) && img.Valid() && Uses(st.cache, img, width)
    ensures st.seen.Some? && SameSize(st.seen.value, img) && st.cache == TrueCache(st.seen.value, width)
  {
    FullScaleSize(img, width);
    FullScaleSize(st.seen.value, st.seenWidth);
    SameScale(st.seen.value, img, st.seenWidth, width);
  }

  /** Skipped captures that changed only what the hint scales afresh. */
  lemma ChainScaleWorks(st: Layer, img: Img, rects: seq<Rect>, width: int, missed: seq<Rect>)
    requires LayerOK(st) && LayerTrue(st) && img.Valid() && img.w > 0 && img.h > 0 && st.seen.Some?
    requires AgreeOutside(st.seen.value, img, missed + rects) && (Uses(st.cache, img, width) ==> KeySafe(missed, rects, img.w, img.h, width))
    ensures ScaleWorks(st, img, SrcHint(true, rects), width)
  {
    if Uses(st.cache, img, width) {
      CacheOfWidth(st, img, width);
      SkippedScaleWorks(st.seen.value, img, missed, rects, width);
    }
    hide FullScale, StaleFree, TrueCache;
  }

  /** Skipped captures that changed only tiles the hint reaches. */
  lemma ChainDiffWorks(st: Layer, img: Img, rects: seq<Rect>, width: int, missed: seq<Rect>)
    requires LayerOK(st) && LayerTrue(st) && img.Valid() && img.w > 0 && img.h > 0 && st.seen.Some?
    requires AgreeOutside(st.seen.value, img, missed + rects)
    requires st.prev.Some? && !NeedsKey(st, FullScale(img, width)) ==> MarkSafe(missed, rects, img.w, img.h, width)
    ensures DiffWorks(st, img, SrcHint(true, rects), width)
  {
    FrameSize(img, width);
    if st.prev.Some? && !NeedsKey(st, FullScale(img, width)) {
      SkippedDiffWorks(st.seen.value, img, missed, rects, width);
      SameScale(st.seen.value, img, st.seenWidth, width);
    }
    hide FullScale, ChangesAreMarked;
  }

  lemma NothingSkipped(rects: seq<Rect>, sw: nat, sh: nat, width: int)
    ensures SkipSafe([], rects, sw, sh, width)
  {
    if sw > 0 && sh > 0 {
      forall dx, dy
        ensures !Counts([], sw, sh, width, dx, dy)
      {
        var dw, dh := FrameW(sw, sh, width), FrameH(sw, sh, width);
        if 0 <= dx < dw && 0 <= dy < dh {
          Weighing.NoWeight(sw, sh, dw, dh, dx, dy);
        }
        hide Weighing.RowWeight, Weighing.ColumnWeight;
      }
    }
  }

  /** A hint that covers the change since the layer's own last processed capture works,
      whatever was skipped in between. */
  lemma CoveringHintWorks(st: Layer, img: Img, h: SrcHint, width: int)
    requires LayerOK(st) && LayerTrue(st) && img.Valid() && HintCovers(st.seen, img, h)
    ensures ScaleWorks(st, img, h, width) && DiffWorks(st, img, h, width)
  {
    hide LayerTrue, LayerOK, ScaleWorks, DiffWorks, KeySafe, MarkSafe;
    if !h.ok || st.seen.None? || img.w == 0 || img.h == 0 {
      PlainWorks(st, img, h, width);
    } else if !SameSize(st.seen.value, img) {
      FullHintWorks(st, img, h.rects, width);
    } else {
      assert [] + h.rects == h.rects;
      NothingSkipped(h.rects, img.w, img.h, width);
      ChainScaleWorks(st, img, h.rects, width, []);
      ChainDiffWorks(st, img, h.rects, width, []);
    }
  }

  /** A key or video turn needs no compared tiles: what was missed must be scaled afresh. */
  lemma ReachedScaleWorks(s: Sys, st: Layer, a: Action, width: int)
    requires Shape(s) && a.Turn? && a.img.Valid() && Promised(s, a) && LayerOK(st) && LayerTrue(st) && LayerMissed(s, st)
    requires ScaleReached(s, st, a.img, a.hint, width)
    ensures ScaleWorks(st, a.img, a.hint, width)
  {
    var img, h, m := a.img, a.hint, MissedOf(s, st.id);
    hide LayerTrue, LayerOK, KeySafe, FreshAll, AgreeOutside;
    if !h.ok || st.seen.None? || img.w == 0 || img.h == 0 {
      PlainWorks(st, img, h, width);
    } else if Uses(st.cache, img, width) {
      if !SameSize(s.lastSrc.value, img) {
        FullHintWorks(st, img, h.rects, width);
      } else if m.Some? {
        PromisedPair(s, a);
        AgreeChain(st.seen.value, s.lastSrc.value, img, m.value, h.rects);
        ChainScaleWorks(st, img, h.rects, width, m.value);
      } else {
        AllFreshWorks(st, img, h.rects, width);
      }
    }
  }

  lemma ReachedDiffWorks(s: Sys, st: Layer, a: Action, width: int)
    requires Shape(s) && a.Turn? && a.img.Valid() && Promised(s, a) && LayerOK(st) && LayerTrue(st) && LayerMissed(s, st)
    requires DiffReached(s, st, a.img, a.hint, width)
    ensures DiffWorks(st, a.img, a.hint, width)
  {
    var img, h, m := a.img, a.hint, MissedOf(s, st.id);
    hide LayerTrue, LayerOK, MarkSafe, MarkedAll, AgreeOutside, FullScale;
    if !h.ok || st.seen.None? || img.w == 0 || img.h == 0 {
      PlainWorks(st, img, h, width);
    } else if st.prev.Some? && !NeedsKey(st, FullScale(img, width)) {
      if !SameSize(s.lastSrc.value, img) {
        FullHintWorks(st, img, h.rects, width);
      } else if m.Some? {
        PromisedPair(s, a);
        AgreeChain(st.seen.value, s.lastSrc.value, img, m.value, h.rects);
        ChainDiffWorks(st, img, h.rects, width, m.value);
      } else {
        AllMarkedWorks(st, img, h.rects, width);
      }
    }
  }

  lemma ReachingTurnWorks(s: Sys, a: Action, s': Sys)
    requires Inv(s, true) && MissedOK(s) && a.Turn? && IsTurn(s, a, s') && Promised(s, a) && TurnReaches(s, a, s')
    ensures HintWorks(s, a, s')
  {
    hide Outcome, LayerTrue, LayerOK, ScaleWorks, DiffWorks, HintCovers, InSync, Fits, ScaleReached, DiffReached;
    forall k | 0 <= k < |s.layers| && s'.layers[k] != s.layers[k]
      ensures ScaleWorks(s.layers[k], a.img, a.hint, a.widths[k])
      ensures !s.active && !a.now ==> DiffWorks(s.layers[k], a.img, a.hint, a.widths[k])
    {
      ReachedScaleWorks(s, s.layers[k], a, a.widths[k]);
      if !s.active && !a.now {
        ReachedDiffWorks(s, s.layers[k], a, a.widths[k]);
      }
    }
  }

  /** The code's own key turn (the last image with an empty hint) works for every unscaled
      layer, whatever it skipped. */
  lemma UnscaledKeyTurnReaches(s: Sys, st: Layer, img: Img, rects: seq<Rect>, width: int)
    requires img.Valid() && st.needKey && !Shrinks(img, width)
    ensures ScaleReached(s, st, img, SrcHint(true, rects), width) && DiffReached(s, st, img, SrcHint(true, rects), width)
  {
  }

  /** Every capture keeps the source's promise, and every turn's hint reaches what the
      layers it changes have missed. */
  ghost predicate IsReachingRun(states: seq<Sys>, acts: seq<Action>) {
    && IsRun(states, acts)
    && forall i :: 0 <= i < |acts| && acts[i].Turn? ==> Promised(states[i], acts[i]) && TurnReaches(states[i], acts[i], states[i + 1])
  }

  lemma {:induction false} ReachingStates(states: seq<Sys>, acts: seq<Action>, n: nat)
    requires IsReachingRun(states, acts) && n <= |acts|
    ensures Inv(states[n], true) && MissedOK(states[n])
    ensures n < |acts| && acts[n].Turn? ==> HintWorks(states[n], acts[n], states[n + 1])
  {
    hide Inv, HintWorks, MissedOK, Step, TurnReaches, Promised;
    if n == 0 {
      InitInv(states[0]);
      NothingMissed(states[0]);
    } else {
      ReachingStates(states, acts, n - 1);
      if !acts[n - 1].Turn? {
        NotATurn(states[n - 1], acts[n - 1]);
      }
      StepKeepsInv(states[n - 1], acts[n - 1], states[n], true);
      InvShape(states[n]);
      StepKeepsMissed(states[n - 1], acts[n - 1], states[n]);
    }
    if n < |acts| && acts[n].Turn? {
      StepIsTurn(states[n], acts[n], states[n + 1]);
      ReachingTurnWorks(states[n], acts[n], states[n + 1]);
    }
  }

  lemma NothingMissed(s: Sys)
    requires Init(s) && Shape(s)
    ensures MissedOK(s)
  {
  }

  lemma NotATurn(s: Sys, a: Action)
    requires !a.Turn?
    ensures Promised(s, a)
  {
  }

  lemma InvShape(s: Sys)
    requires Inv(s, true)
    ensures Shape(s)
  {
  }

  lemma StepIsTurn(s: Sys, a: Action, s': Sys)
    requires Shape(s) && Step(s, a, s') && a.Turn?
    ensures IsTurn(s, a, s')
  {
  }

  /** Then every hint works. */
  lemma ReachingRunWorks(states: seq<Sys>, acts: seq<Action>)
    requires IsReachingRun(states, acts)
    ensures HintsWork(states, acts)
  {
    forall i | 0 <= i < |acts| && acts[i].Turn?
      ensures HintWorks(states[i], acts[i], states[i + 1])
    {
      ReachingStates(states, acts, i);
    }
  }

  /** So a drained viewer shows the full scale of the last capture its layer processed, with
      captures skipped, hinted or not, as long as hints reach what was missed. */
  lemma ReachingRunShowsLastFrame(states: seq<Sys>, acts: seq<Action>, n: nat, k: nat)
    requires IsReachingRun(states, acts) && n <= |acts| && k < |states[n].layers|
    requires states[n].slot == map[] && states[n].inflight == map[] && !states[n].active && !states[n].layers[k].needKey
    ensures var st := states[n].layers[k];
            && st.seen.Some? && st.seen.value.Valid()
            && var frame := FullScale(st.seen.value, st.seenWidth);
               Viewer.NoPixels(frame) || (st.id in states[n].view && states[n].view[st.id] == frame)
  {
    ReachingRunWorks(states, acts);
    DrainedViewerShowsLastFrame(states, acts, n, k);
  }
}
