/** The pipeline as a state machine: capture stage, slot, sender and viewer take atomic
    steps in any order. */
module Pipe {
  import opened Geometry
  import opened Raster
  import opened Tiles
  import opened Hint
  import opened Scaler
  import opened Skipped
  import opened Jobs
  import opened Viewer
  import Scale
  import Weighing

  /** Capture state of one layer. `cache` is its scaler's memory; `seen` and `seenWidth` are
      the source and width of the layer's last processed capture. */
  datatype Layer = Layer(id: int, width: int, prev: Option<Img>, needKey: bool, cache: Option<Cache>, seen: Option<Img>, seenWidth: int)

  ghost predicate LayerOK(st: Layer) {
    CacheOK(st.cache) && (st.seen.Some? ==> st.seen.value.Valid()) && (st.prev.Some? ==> st.prev.value.Valid())
  }

  /** Previous frame and cache are fresh full scales of the last processed capture. */
  ghost predicate LayerTrue(st: Layer)
    requires LayerOK(st)
  {
    && (st.prev.Some? ==> st.seen.Some? && st.prev.value == FullScale(st.seen.value, st.seenWidth))
    && st.cache == if st.seen.Some? then TrueCache(st.seen.value, st.seenWidth) else None
  }

  function Reset(st: Layer): Layer {
    st.(prev := None, needKey := true)
  }

  ghost predicate NeedsKey(st: Layer, frame: Img) {
    st.needKey || (st.prev.Some? && !SameSize(st.prev.value, frame))
  }

  function SeenAs(st: Layer, img: Img, width: int, frame: Img): Layer {
    st.(prev := Some(frame), needKey := false, cache := NextCache(img, width, frame), seen := Some(img), seenWidth := width)
  }

  /** One layer of one capture turn in tile mode, and the update it contributes. */
  ghost predicate ProcessedAs(st: Layer, st': Layer, img: Img, h: SrcHint, width: int, job: Option<LayerJob>, frame: Img, dirty: seq<bool>)
    requires img.Valid() && LayerOK(st) && frame.Valid()
  {
    var key := NeedsKey(st, frame);
    && IsScale(st.cache, img, width, h, frame) && frame.w <= 65535 && frame.h <= 65535
    && st' == SeenAs(st, img, width, frame)
    && IsFrameDiff(if key then None else st.prev, frame, h, img.w, img.h, dirty)
    && job == if key || true in dirty then Some(LayerJob(st.id, frame, dirty, key)) else None
  }

  ghost predicate Processed(st: Layer, st': Layer, img: Img, h: SrcHint, width: int, job: Option<LayerJob>)
    requires img.Valid() && LayerOK(st)
  {
    exists frame: Img, dirty :: frame.Valid() && ProcessedAs(st, st', img, h, width, job, frame, dirty)
  }

  /** In video mode the frame is made but no tiles are sent. */
  ghost predicate Watched(st: Layer, st': Layer, img: Img, h: SrcHint, width: int)
    requires img.Valid() && LayerOK(st)
  {
    exists frame: Img :: frame.Valid() && IsScale(st.cache, img, width, h, frame) && st' == SeenAs(st, img, width, frame)
  }

  /** What a turn may do to a layer. `was` and `now`: video mode before and after. */
  ghost predicate Outcome(st: Layer, st': Layer, was: bool, now: bool, img: Img, h: SrcHint, width: int, job: Option<LayerJob>)
    requires img.Valid() && LayerOK(st)
  {
    if was && !now then
      // leaving video: every layer starts over, possibly already in this turn
      || (job == None && (st' == Reset(st) || exists seen :: Watched(st, seen, img, h, width) && st' == Reset(seen)))
      || Processed(Reset(st), st', img, h, width, job)
    else
      || (job == None && st' == st)                                  // not due
      || (now && job == None && Watched(st, st', img, h, width))     // video carries it
      || (!now && Processed(st, st', img, h, width, job))
  }

  // ---- when a turn is faithful ----

  /** The scaler leaves nothing stale. */
  ghost predicate ScaleWorks(st: Layer, img: Img, h: SrcHint, width: int)
    requires img.Valid() && LayerOK(st)
  {
    StaleFree(st.cache, img, width, h)
  }

  /** Every changed tile of the frame is compared. */
  ghost predicate DiffWorks(st: Layer, img: Img, h: SrcHint, width: int)
    requires img.Valid() && LayerOK(st)
  {
    FullScaleIsValid(img, width);
    h.ok && img.w > 0 && img.h > 0 && st.prev.Some? && !NeedsKey(st, FullScale(img, width)) ==>
      ChangesAreMarked(st.prev.value, FullScale(img, width), h, img.w, img.h)
  }

  /** A processed layer's frame and mask are those of a fresh scale and a plain diff, if and
      only if the hint leaves no changed pixel unscaled and no changed tile uncompared. */
  lemma ProcessedExactly(st: Layer, st': Layer, img: Img, h: SrcHint, width: int, job: Option<LayerJob>, frame: Img, dirty: seq<bool>)
    requires img.Valid() && LayerOK(st) && LayerTrue(st) && frame.Valid() && ProcessedAs(st, st', img, h, width, job, frame, dirty)
    ensures frame == FullScale(img, width) && IsDiff(if NeedsKey(st, frame) then None else st.prev, frame, dirty)
            <==> ScaleWorks(st, img, h, width) && DiffWorks(st, img, h, width)
  {
    TrueLayerCache(st);
    ScaleExactly(st.cache, img, width, h, frame);
    if frame == FullScale(img, width) && !NeedsKey(st, frame) && h.ok && st.prev.Some? {
      hide Scaler.FullScale, StaleFree, IsScale;
      if img.w == 0 || img.h == 0 {
        Unscaled(img, width);
        EmptyFrameDiff(st.prev.value, frame, dirty, h);
      } else {
        HintedDiffExact(st.prev.value, frame, h, img.w, img.h, dirty);
      }
    } else {
      hide Scaler.FullScale, StaleFree, IsScale;
    }
  }

  lemma TrueLayerCache(st: Layer)
    requires LayerOK(st) && LayerTrue(st)
    ensures CacheTrue(st.cache)
  {
    if st.seen.Some? {
      TrueCacheOK(st.seen.value, st.seenWidth);
    }
  }

  lemma Unscaled(img: Img, width: int)
    requires img.Valid() && (img.w == 0 || img.h == 0)
    ensures FullScale(img, width) == img
  {
  }

  /** A layer that needs a key can still send stale pixels: the key frame is the scaler's
      output. This is the layer of Skipped.StaleColumn after a key request. */
  lemma StaleKeyFrame(st: Layer, st': Layer, job: Option<LayerJob>)
    requires st.needKey && st.seen == Some(Weighing.Holed([Rect(0, 0, 2, 1)], 128, 1)) && st.seenWidth == 64 && LayerOK(st) && LayerTrue(st)
    requires Weighing.White(128, 1).Valid()
    requires Processed(st, st', Weighing.White(128, 1), SrcHint(true, [Rect(127, 0, 128, 1)]), 64, job)
    ensures job.Some? && job.value.key && job.value.frame.Valid() && job.value.frame.w == 64 && job.value.frame.h == 1
    ensures job.value.frame.At(0, 0) == Weighing.BLACK
    ensures var whole := FullScale(Weighing.White(128, 1), 64);
            whole.Valid() && whole.w == 64 && whole.h == 1 && whole.At(0, 0) == Scale.WHITE
  {
    hide Scaler.FullScale, IsScale, Weighing.Holed, IsFrameDiff, NextCache;
    var img, h := Weighing.White(128, 1), SrcHint(true, [Rect(127, 0, 128, 1)]);
    var frame: Img, dirty :| frame.Valid() && ProcessedAs(st, st', img, h, 64, job, frame, dirty);
    StaleColumn(frame);
  }

  /** `missed`, per layer id: the hint rectangles of the captures since the layer's last
      processed one, or None if one of them had no hint or another size. */
  datatype Sys = Sys(layers: seq<Layer>, active: bool, lastSrc: Option<Img>,
                     slot: map<int, LayerJob>, inflight: map<int, LayerJob>, view: map<int, Img>,
                     wake: bool, waiting: bool, missed: map<int, Option<seq<Rect>>>)

  function At(m: map<int, LayerJob>, l: int): Option<LayerJob> {
    if l in m then Some(m[l]) else None
  }

  function Canvas(s: Sys, l: int): Option<Img> {
    if l in s.view then Some(s.view[l]) else None
  }

  ghost function ApplyOpt(c: Option<Img>, j: Option<LayerJob>): Option<Img>
    requires CanvasOK(c) && (j.Some? ==> JobOK(j.value))
    ensures CanvasOK(ApplyOpt(c, j))
  {
    if j.Some? then Apply(c, j.value) else c
  }

  ghost predicate JobsOK(m: map<int, LayerJob>) {
    forall l :: l in m ==> JobOK(m[l]) && m[l].layer == l
  }

  ghost predicate Shape(s: Sys) {
    && JobsOK(s.slot) && JobsOK(s.inflight)
    && (forall l :: l in s.view ==> s.view[l].Valid()) && (s.lastSrc.Some? ==> s.lastSrc.value.Valid())
    && (forall k :: 0 <= k < |s.layers| ==> LayerOK(s.layers[k]))
    && (forall k, m :: 0 <= k < m < |s.layers| ==> s.layers[k].id != s.layers[m].id)
  }

  /** The viewer's canvas of a layer once the job being sent is through. */
  ghost function Sent(s: Sys, l: int): Option<Img>
    requires Shape(s)
    ensures CanvasOK(Sent(s, l))
  {
    ApplyOpt(Canvas(s, l), At(s.inflight, l))
  }

  /** ... and once the pending job is through as well. */
  ghost function Drained(s: Sys, l: int): Option<Img>
    requires Shape(s)
  {
    ApplyOpt(Sent(s, l), At(s.slot, l))
  }

  /** The canvas shows the frame, or is at least of its size (an empty frame is never sent). */
  ghost predicate Shows(c: Option<Img>, frame: Img, exact: bool) {
    NoPixels(frame) || (c.Some? && SameSize(c.value, frame) && (exact ==> c.value == frame))
  }

  /** A delta meets a canvas of its own size. */
  ghost predicate Fits(c: Option<Img>, j: Option<LayerJob>) {
    j.Some? && !j.value.key ==> !NoPixels(j.value.frame) && c.Some? && SameSize(c.value, j.value.frame)
  }

  ghost predicate InSync(s: Sys, st: Layer, exact: bool)
    requires Shape(s)
  {
    !st.needKey && !s.active ==> st.prev.Some? && Shows(Drained(s, st.id), st.prev.value, exact)
  }

  /** `exact`: frames and caches are true and the viewer shows them. Without it, what holds
      whatever the hints say: sizes, deltas that fit, and the sender's wake-up. */
  ghost predicate Inv(s: Sys, exact: bool) {
    && Shape(s)
    && (forall k :: 0 <= k < |s.layers| ==> (exact ==> LayerTrue(s.layers[k])) && InSync(s, s.layers[k], exact))
    && (forall l :: Fits(Canvas(s, l), At(s.inflight, l)) && Fits(Sent(s, l), At(s.slot, l)))
    && (s.waiting && s.slot != map[] ==> s.wake)
  }

  // ---- the steps ----

  /** Layer (id, width) of an update applied to the layer's previous state, if any. */
  function Updated(st: Option<Layer>, id: int, w: int, key: bool): Layer {
    var base := if st.None? then Layer(id, w, None, true, None, None, 0)
                else if st.value.width != w then Reset(st.value) else st.value;
    base.(id := id, width := w, needKey := base.needKey || key)
  }

  ghost predicate IsUpdate(cur: seq<Layer>, next: seq<Layer>) {
    && (forall k, m :: 0 <= k < m < |next| ==> next[k].id != next[m].id)
    && forall k :: 0 <= k < |next| ==> ComesFrom(cur, next[k])
  }

  /** The layer is new, or the current layer with its id after the update. */
  ghost predicate ComesFrom(cur: seq<Layer>, nx: Layer) {
    exists st: Option<Layer>, key :: nx == Updated(st, nx.id, nx.width, key) && (st.Some? ==> st.value in cur && st.value.id == nx.id)
  }

  datatype Action =
    | Turn(img: Img, hint: SrcHint, widths: seq<int>, now: bool, jobs: map<int, LayerJob>)
    | LeaveVideo
    | KeyRequest
    | DisplaySwitch
    | LayerUpdate(next: seq<Layer>)
    | Take
    | Send(layer: int)
    | Park
    | WakeUp

  /** A turn: each layer has one of its outcomes, the updates go to the slot. */
  ghost predicate IsTurn(s: Sys, a: Action, s': Sys)
    requires Shape(s) && a.Turn?
  {
    var n := |s.layers|;
    && a.img.Valid() && |a.widths| == n && |s'.layers| == n
    && (forall k :: 0 <= k < n ==> Outcome(s.layers[k], s'.layers[k], s.active, a.now, a.img, a.hint, a.widths[k], At(a.jobs, s.layers[k].id)))
    && (forall l :: l in a.jobs ==> exists k :: 0 <= k < n && s.layers[k].id == l)
    && s' == s.(layers := s'.layers, active := a.now, lastSrc := Some(a.img),
                slot := if a.jobs == map[] then s.slot else MergeMap(s.slot, a.jobs),
                wake := s.wake || a.jobs != map[], missed := MissedAfter(s, s'.layers, a.img, a.hint))
  }

  /** The turn's hint works for every layer it changes; tiles matter in tile mode only. */
  ghost predicate HintWorks(s: Sys, a: Action, s': Sys)
    requires Shape(s) && a.Turn? && IsTurn(s, a, s')
  {
    forall k :: 0 <= k < |s.layers| && s'.layers[k] != s.layers[k] ==>
                  && ScaleWorks(s.layers[k], a.img, a.hint, a.widths[k])
                  && (!s.active && !a.now ==> DiffWorks(s.layers[k], a.img, a.hint, a.widths[k]))
  }

  ghost predicate SeenNow(layers: seq<Layer>, id: int, img: Img) {
    exists k :: 0 <= k < |layers| && layers[k].id == id && layers[k].seen == Some(img)
  }

  ghost function MissedAfter(s: Sys, layers: seq<Layer>, img: Img, hint: SrcHint): map<int, Option<seq<Rect>>> {
    map id | id in set k | 0 <= k < |layers| :: layers[k].id :: if SeenNow(layers, id, img) then Some([]) else Longer(s, id, img, hint)
  }

  /** One more capture skipped. */
  function Longer(s: Sys, id: int, img: Img, hint: SrcHint): Option<seq<Rect>> {
    if hint.ok && s.lastSrc.Some? && SameSize(s.lastSrc.value, img) && id in s.missed && s.missed[id].Some?
    then Some(s.missed[id].value + hint.rects) else None
  }

  ghost predicate Step(s: Sys, a: Action, s': Sys)
    requires Shape(s)
  {
    match a
    case Turn(_, _, _, _, _) => IsTurn(s, a, s')
    case LeaveVideo => s.active && s' == s.(active := false, layers := seq(|s.layers|, k requires 0 <= k < |s.layers| => Reset(s.layers[k])))
    case KeyRequest => s' == s.(layers := seq(|s.layers|, k requires 0 <= k < |s.layers| => s.layers[k].(needKey := true)))
    case DisplaySwitch => s' == s.(layers := seq(|s.layers|, k requires 0 <= k < |s.layers| => Reset(s.layers[k])))
    case LayerUpdate(next) => IsUpdate(s.layers, next) && s' == s.(layers := next)
    case Take => !s.waiting && s.inflight == map[] && s.slot != map[] && s' == s.(inflight := s.slot, slot := map[])
    case Send(l) =>
      l in s.inflight
      && var c := Apply(Canvas(s, l), s.inflight[l]);
         s' == s.(inflight := s.inflight - {l}, view := if c.Some? then s.view[l := c.value] else s.view)
    case Park => !s.waiting && s.inflight == map[] && s.slot == map[] && s' == s.(waiting := true)
    case WakeUp => s.waiting && s.wake && s' == s.(waiting := false, wake := false)
  }

  ghost predicate Init(s: Sys) {
    && s.slot == map[] && s.inflight == map[] && s.view == map[] && !s.active && !s.waiting && s.lastSrc == None && s.missed == map[]
    && (forall k :: 0 <= k < |s.layers| ==> s.layers[k].needKey && s.layers[k].prev == None && s.layers[k].cache == None && s.layers[k].seen == None)
    && (forall k, m :: 0 <= k < m < |s.layers| ==> s.layers[k].id != s.layers[m].id)
  }

  // ---- one layer of one turn ----

  /** Frames of the same size made from sources of the same size used the same scale. */
  lemma SameScale(a: Img, b: Img, wa: int, wb: int)
    requires a.Valid() && b.Valid() && SameSize(a, b) && SameSize(FullScale(a, wa), FullScale(b, wb))
    ensures FullScale(a, wa) == FullScale(a, wb)
  {
  }

  /** Pixels outside a diff mask are those of the previous frame. */
  lemma UnchangedOutside(prev: Img, cur: Img, dirty: seq<bool>, x: int, y: int)
    requires prev.Valid() && cur.Valid() && SameSize(prev, cur) && IsDiff(Some(prev), cur, dirty)
    requires 0 <= x < cur.w && 0 <= y < cur.h && !DirtyAt(dirty, cur.w, cur.h, x, y)
    ensures prev.At(x, y) == cur.At(x, y)
  {
    if !AgreeAt(prev, cur, x, y) {
      DiffCovers(prev, cur, dirty, x, y);
    }
  }

  lemma NoDirtyIsEqual(prev: Img, cur: Img, dirty: seq<bool>)
    requires prev.Valid() && cur.Valid() && SameSize(prev, cur) && IsDiff(Some(prev), cur, dirty) && true !in dirty
    ensures prev == cur
  {
    forall x, y
      ensures AgreeAt(prev, cur, x, y)
    {
      if 0 <= x < cur.w && 0 <= y < cur.h {
        assert !DirtyAt(dirty, cur.w, cur.h, x, y);
        UnchangedOutside(prev, cur, dirty, x, y);
      }
    }
    SamePixels(prev, cur);
  }

  lemma OrBit(a: seq<bool>, b: seq<bool>, w: nat, h: nat, x: int, y: int)
    requires |a| == |b|
    ensures DirtyAt(OrMasks(a, b), w, h, x, y) <==> DirtyAt(a, w, h, x, y) || DirtyAt(b, w, h, x, y)
  {
  }

  ghost function MergedOpt(o: Option<LayerJob>, n: Option<LayerJob>): Option<LayerJob> {
    if n.None? then o else if o.None? then n else Some(Combine(o.value, n.value))
  }

  /** Joining a pending delta with a new one: the canvas d ends up as the new frame. */
  lemma DeltaLands(d: Option<Img>, o: Option<LayerJob>, n: LayerJob, prev: Img, exact: bool)
    requires CanvasOK(d) && (o.Some? ==> JobOK(o.value)) && JobOK(n) && !n.key && !NoPixels(n.frame)
    requires prev.Valid() && SameSize(prev, n.frame) && (exact ==> IsDiff(Some(prev), n.frame, n.dirty))
    requires Fits(d, o) && Shows(ApplyOpt(d, o), prev, exact)
    ensures Fits(d, MergedOpt(o, Some(n)))
    ensures var m := MergedOpt(o, Some(n)).value; JobOK(m) && Shows(Apply(d, m), n.frame, exact)
  {
    var m := MergedOpt(o, Some(n)).value;
    if !m.key && exact {
      var base := d.value;
      var out := Overlay(base, n.frame, m.dirty);
      forall x, y
        ensures AgreeAt(out, n.frame, x, y)
      {
        if 0 <= x < n.frame.w && 0 <= y < n.frame.h && !DirtyAt(m.dirty, n.frame.w, n.frame.h, x, y) {
          if o.Some? {
            OrBit(n.dirty, o.value.dirty, n.frame.w, n.frame.h, x, y);
            assert ApplyOpt(d, o).value.At(x, y) == base.At(x, y);
          }
          UnchangedOutside(prev, n.frame, n.dirty, x, y);
        }
      }
      SamePixels(out, n.frame);
    }
  }

  lemma KeyLands(d: Option<Img>, o: Option<LayerJob>, n: LayerJob, exact: bool)
    requires CanvasOK(d) && (o.Some? ==> JobOK(o.value)) && JobOK(n) && n.key
    ensures var m := MergedOpt(o, Some(n)).value; JobOK(m) && m.key && m.layer == n.layer && Shows(Apply(d, m), n.frame, exact)
  {
  }

  /** One processed layer: pending work joined with its update leaves the viewer on the
      new frame, and never sends a delta that does not fit. */
  lemma ProcessedLands(st: Layer, st': Layer, img: Img, h: SrcHint, width: int, job: Option<LayerJob>, d: Option<Img>, o: Option<LayerJob>, exact: bool)
    requires img.Valid() && LayerOK(st) && Processed(st, st', img, h, width, job)
    requires exact ==> LayerTrue(st) && ScaleWorks(st, img, h, width) && DiffWorks(st, img, h, width)
    requires CanvasOK(d) && (o.Some? ==> JobOK(o.value)) && Fits(d, o)
    requires !st.needKey ==> st.prev.Some? && Shows(ApplyOpt(d, o), st.prev.value, exact)
    ensures LayerOK(st') && (exact ==> LayerTrue(st')) && st'.id == st.id && !st'.needKey && st'.prev.Some?
    ensures job.Some? ==> JobOK(job.value) && job.value.layer == st.id
    ensures var m := MergedOpt(o, job); (m.Some? ==> JobOK(m.value)) && Fits(d, m) && Shows(ApplyOpt(d, m), st'.prev.value, exact)
  {
    var frame: Img, dirty :| frame.Valid() && ProcessedAs(st, st', img, h, width, job, frame, dirty);
    if exact {
      ProcessedExactly(st, st', img, h, width, job, frame, dirty);
      SeenIsTrue(st, img, width);
    }
    IsScaleOK(st.cache, img, width, h, frame);
    var key := NeedsKey(st, frame);
    FrameDiffLength(if key then None else st.prev, frame, h, img.w, img.h, dirty);
    hide Scaler.FullScale, Overlay, Combine, IsScale, IsFrameDiff, IsDiff, TrueCache, NextCache, ScaleWorks, DiffWorks;
    if key {
      KeyLands(d, o, job.value, exact);
      MergedKeyFits(d, o, job.value);
    } else if true in dirty {
      DirtyHasPixels(frame, dirty);
      DeltaLands(d, o, job.value, st.prev.value, exact);
    } else if exact {
      NoDirtyIsEqual(st.prev.value, frame, dirty);
    }
  }

  lemma SeenIsTrue(st: Layer, img: Img, width: int)
    requires img.Valid() && LayerOK(st)
    ensures var st' := SeenAs(st, img, width, FullScale(img, width)); LayerOK(st') && LayerTrue(st')
  {
    FullScaleIsValid(img, width);
    TrueCacheOK(img, width);
  }

  lemma FrameDiffLength(prev: Option<Img>, cur: Img, h: SrcHint, srcW: int, srcH: int, dirty: seq<bool>)
    requires cur.Valid() && (prev.Some? ==> prev.value.Valid()) && IsFrameDiff(prev, cur, h, srcW, srcH, dirty)
    ensures |dirty| == TilesFor(cur.w) * TilesFor(cur.h)
  {
  }

  /** A watched layer stays true. */
  lemma WatchedIsTrue(st: Layer, st': Layer, img: Img, h: SrcHint, width: int, exact: bool)
    requires img.Valid() && LayerOK(st) && Watched(st, st', img, h, width) && (exact ==> LayerTrue(st) && ScaleWorks(st, img, h, width))
    ensures LayerOK(st') && (exact ==> LayerTrue(st')) && st'.id == st.id
  {
    var frame: Img :| frame.Valid() && IsScale(st.cache, img, width, h, frame) && st' == SeenAs(st, img, width, frame);
    IsScaleOK(st.cache, img, width, h, frame);
    if exact {
      TrueLayerCache(st);
      ScaleExactly(st.cache, img, width, h, frame);
      SeenIsTrue(st, img, width);
    }
  }

  lemma MergedKeyFits(d: Option<Img>, o: Option<LayerJob>, n: LayerJob)
    requires n.key
    ensures Fits(d, MergedOpt(o, Some(n)))
  {
  }

  lemma DirtyHasPixels(f: Img, dirty: seq<bool>)
    requires |dirty| == TilesFor(f.w) * TilesFor(f.h) && true in dirty
    ensures !NoPixels(f)
  {
  }

  // ---- every step keeps the invariant ----

  lemma MergeAt(slot: map<int, LayerJob>, jobs: map<int, LayerJob>, l: int)
    ensures At(if jobs == map[] then slot else MergeMap(slot, jobs), l) == MergedOpt(At(slot, l), At(jobs, l))
  {
  }

  /** What one turn does to one layer's share of the invariant. */
  lemma TurnLayer(s: Sys, a: Action, s': Sys, k: nat, exact: bool)
    requires Inv(s, exact) && a.Turn? && IsTurn(s, a, s') && (exact ==> HintWorks(s, a, s')) && k < |s.layers|
    ensures var st, st' := s.layers[k], s'.layers[k];
            var m := MergedOpt(At(s.slot, st.id), At(a.jobs, st.id));
            && LayerOK(st') && (exact ==> LayerTrue(st')) && st'.id == st.id
            && (At(a.jobs, st.id).Some? ==> a.jobs[st.id].layer == st.id)
            && (m.Some? ==> JobOK(m.value)) && Fits(Sent(s, st.id), m)
            && (!st'.needKey && !a.now ==> st'.prev.Some? && Shows(ApplyOpt(Sent(s, st.id), m), st'.prev.value, exact))
  {
    var st, st' := s.layers[k], s'.layers[k];
    var d, o, j := Sent(s, st.id), At(s.slot, st.id), At(a.jobs, st.id);
    assert InSync(s, st, exact);
    assert Fits(Canvas(s, st.id), At(s.inflight, st.id)) && Fits(d, o);
    hide Scaler.FullScale, Processed, Watched, MergeMap, LayerTrue, ScaleWorks, DiffWorks;
    ResetIsTrue(st, a.img, a.hint, a.widths[k], exact);
    if s.active && !a.now {
      if Processed(Reset(st), st', a.img, a.hint, a.widths[k], j) {
        if exact && st' == st {
          SameAsSeen(st, a.img, a.hint, a.widths[k], j);
        }
        ProcessedLands(Reset(st), st', a.img, a.hint, a.widths[k], j, d, o, exact);
      } else if st' != Reset(st) {
        var seen :| Watched(st, seen, a.img, a.hint, a.widths[k]) && st' == Reset(seen);
        if st' == st {
          hide Reset;
        } else {
          WatchedIsTrue(st, seen, a.img, a.hint, a.widths[k], exact);
          ResetIsTrue(seen, a.img, a.hint, a.widths[k], exact);
        }
      }
    } else if !a.now && Processed(st, st', a.img, a.hint, a.widths[k], j) {
      if exact && st' == st {
        SameAsSeen(st, a.img, a.hint, a.widths[k], j);
      }
      ProcessedLands(st, st', a.img, a.hint, a.widths[k], j, d, o, exact);
    } else if a.now && st' != st {
      WatchedIsTrue(st, st', a.img, a.hint, a.widths[k], exact);
    }
  }

  lemma ResetIsTrue(st: Layer, img: Img, h: SrcHint, width: int, exact: bool)
    requires LayerOK(st) && (exact ==> LayerTrue(st)) && img.Valid()
    ensures LayerOK(Reset(st)) && (exact ==> LayerTrue(Reset(st)))
    ensures DiffWorks(Reset(st), img, h, width) && (ScaleWorks(Reset(st), img, h, width) <==> ScaleWorks(st, img, h, width))
  {
    hide Scaler.FullScale;
  }

  /** A layer whose state the turn left as it was had already seen this very capture. */
  lemma SameAsSeen(st: Layer, img: Img, h: SrcHint, width: int, job: Option<LayerJob>)
    requires img.Valid() && LayerOK(st) && LayerTrue(st)
    requires Processed(st, st, img, h, width, job) || Processed(Reset(st), st, img, h, width, job)
    ensures ScaleWorks(st, img, h, width) && DiffWorks(st, img, h, width)
  {
    assert st.seen == Some(img) && st.seenWidth == width && st.prev.Some? && st.prev.value == FullScale(img, width);
    FullScaleIsValid(img, width);
    if Uses(st.cache, img, width) {
      forall mask | IsSrcMask(img, img, h, mask)
        ensures Refreshed(img, img, mask, st.cache.value.dst.w, st.cache.value.dst.h)
      {
      }
    }
  }

  lemma TurnShape(s: Sys, a: Action, s': Sys, exact: bool)
    requires Inv(s, exact) && a.Turn? && IsTurn(s, a, s') && (exact ==> HintWorks(s, a, s'))
    ensures Shape(s')
  {
    hide Scaler.FullScale, Outcome, MergeMap, LayerTrue, HintWorks;
    forall k | 0 <= k < |s'.layers|
      ensures LayerOK(s'.layers[k]) && s'.layers[k].id == s.layers[k].id
    {
      TurnLayer(s, a, s', k, exact);
    }
    forall l | l in s'.slot
      ensures JobOK(s'.slot[l]) && s'.slot[l].layer == l
    {
      MergeAt(s.slot, a.jobs, l);
      if l in a.jobs {
        var k :| 0 <= k < |s.layers| && s.layers[k].id == l;
        TurnLayer(s, a, s', k, exact);
        MergedLayer(At(s.slot, l), At(a.jobs, l));
      }
    }
  }

  lemma MergedLayer(o: Option<LayerJob>, n: Option<LayerJob>)
    ensures n.Some? ==> MergedOpt(o, n).Some? && MergedOpt(o, n).value.layer == n.value.layer
  {
  }

  lemma TurnFits(s: Sys, a: Action, s': Sys, l: int, exact: bool)
    requires Inv(s, exact) && a.Turn? && IsTurn(s, a, s') && (exact ==> HintWorks(s, a, s')) && Shape(s')
    ensures Fits(Canvas(s', l), At(s'.inflight, l)) && Fits(Sent(s', l), At(s'.slot, l))
  {
    hide Scaler.FullScale, Outcome, MergeMap, LayerTrue, HintWorks, LayerOK, MissedAfter, Apply;
    assert Fits(Canvas(s, l), At(s.inflight, l)) && Fits(Sent(s, l), At(s.slot, l));
    MergeAt(s.slot, a.jobs, l);
    if l in a.jobs {
      var k :| 0 <= k < |s.layers| && s.layers[k].id == l;
      TurnLayer(s, a, s', k, exact);
    }
  }

  lemma TurnInSync(s: Sys, a: Action, s': Sys, k: nat, exact: bool)
    requires Inv(s, exact) && a.Turn? && IsTurn(s, a, s') && (exact ==> HintWorks(s, a, s')) && Shape(s') && k < |s'.layers|
    ensures (exact ==> LayerTrue(s'.layers[k])) && InSync(s', s'.layers[k], exact)
  {
    hide Scaler.FullScale, Outcome, MergeMap, LayerTrue, HintWorks, LayerOK, MissedAfter, Apply;
    TurnLayer(s, a, s', k, exact);
    MergeAt(s.slot, a.jobs, s.layers[k].id);
  }

  lemma TurnKeepsInv(s: Sys, a: Action, s': Sys, exact: bool)
    requires Inv(s, exact) && a.Turn? && IsTurn(s, a, s') && (exact ==> HintWorks(s, a, s'))
    ensures Inv(s', exact)
  {
    TurnShape(s, a, s', exact);
    forall l
      ensures Fits(Canvas(s', l), At(s'.inflight, l)) && Fits(Sent(s', l), At(s'.slot, l))
    {
      TurnFits(s, a, s', l, exact);
    }
    forall k | 0 <= k < |s'.layers|
      ensures (exact ==> LayerTrue(s'.layers[k])) && InSync(s', s'.layers[k], exact)
    {
      TurnInSync(s, a, s', k, exact);
    }
    hide Fits, InSync, LayerTrue, HintWorks, Outcome, MergeMap, Shape, MissedAfter;
  }

  lemma UpdatedOK(st: Option<Layer>, id: int, w: int, key: bool)
    requires st.Some? ==> LayerOK(st.value) && st.value.id == id
    ensures LayerOK(Updated(st, id, w, key))
    ensures (st.Some? ==> LayerTrue(st.value)) ==> LayerTrue(Updated(st, id, w, key))
    ensures !Updated(st, id, w, key).needKey ==> st.Some? && !st.value.needKey && Updated(st, id, w, key).prev == st.value.prev
  {
    hide Scaler.FullScale, TrueCache;
  }

  lemma UpdateLayer(s: Sys, next: seq<Layer>, k: nat, exact: bool)
    requires Inv(s, exact) && IsUpdate(s.layers, next) && k < |next|
    ensures LayerOK(next[k]) && (exact ==> LayerTrue(next[k]))
    ensures !next[k].needKey && !s.active ==> next[k].prev.Some? && Shows(Drained(s, next[k].id), next[k].prev.value, exact)
  {
    hide LayerOK, LayerTrue, Updated, Drained, Sent, Shows, Fits;
    assert ComesFrom(s.layers, next[k]);
    var st: Option<Layer>, key :| next[k] == Updated(st, next[k].id, next[k].width, key)
                                  && (st.Some? ==> st.value in s.layers && st.value.id == next[k].id);
    if st.Some? {
      var m :| 0 <= m < |s.layers| && s.layers[m] == st.value;
      assert InSync(s, s.layers[m], exact);
    }
    UpdatedOK(st, next[k].id, next[k].width, key);
  }

  lemma SameJobs(s: Sys, s': Sys)
    requires Shape(s) && Shape(s') && s'.slot == s.slot && s'.inflight == s.inflight && s'.view == s.view
    ensures forall l :: Canvas(s', l) == Canvas(s, l) && Sent(s', l) == Sent(s, l) && Drained(s', l) == Drained(s, l)
  {
  }

  lemma UpdateKeepsInv(s: Sys, next: seq<Layer>, s': Sys, exact: bool)
    requires Inv(s, exact) && Step(s, LayerUpdate(next), s')
    ensures Inv(s', exact)
  {
    hide LayerOK, LayerTrue, ComesFrom, Drained, Sent, Shows, Fits, Canvas;
    forall k | 0 <= k < |next|
      ensures LayerOK(next[k]) && (exact ==> LayerTrue(next[k]))
      ensures !next[k].needKey && !s.active ==> next[k].prev.Some? && Shows(Drained(s, next[k].id), next[k].prev.value, exact)
    {
      UpdateLayer(s, next, k, exact);
    }
    assert Shape(s');
    SameJobs(s, s');
  }

  lemma ResetKeepsInv(s: Sys, s': Sys, exact: bool)
    requires Inv(s, exact) && |s'.layers| == |s.layers|
    requires s' == s.(active := s'.active, layers := s'.layers)
    requires forall k :: 0 <= k < |s.layers| ==> s'.layers[k] == Reset(s.layers[k]) || s'.layers[k] == s.layers[k].(needKey := true)
    ensures Inv(s', exact)
  {
    assert Shape(s');
    assert forall l :: Sent(s', l) == Sent(s, l);
    assert forall l :: Canvas(s', l) == Canvas(s, l);
  }

  lemma SendShape(s: Sys, l: int, s': Sys, exact: bool)
    requires Inv(s, exact) && Step(s, Send(l), s')
    ensures Shape(s')
  {
    hide Overlay, LayerOK;
    ApplyOK(Canvas(s, l), s.inflight[l]);
    hide Apply;
  }

  /** Sending a layer moves its job into the canvas; nothing else changes. */
  lemma SendMoves(s: Sys, l: int, s': Sys, m: int, exact: bool)
    requires Inv(s, exact) && Step(s, Send(l), s') && Shape(s')
    ensures Sent(s', m) == Sent(s, m) && Drained(s', m) == Drained(s, m)
    ensures Fits(Canvas(s', m), At(s'.inflight, m)) && Fits(Sent(s', m), At(s'.slot, m))
  {
    AppliedCanvas(s, l, s', exact);
    hide Apply, LayerOK, LayerTrue, InSync, JobOK;
    assert Fits(Canvas(s, m), At(s.inflight, m)) && Fits(Sent(s, m), At(s.slot, m));
    assert m != l ==> Canvas(s', m) == Canvas(s, m);
  }

  lemma SendKeepsInv(s: Sys, l: int, s': Sys, exact: bool)
    requires Inv(s, exact) && Step(s, Send(l), s')
    ensures Inv(s', exact)
  {
    SendShape(s, l, s', exact);
    hide Apply, Scaler.FullScale, LayerOK, LayerTrue, Fits, Shows, Drained, Sent, JobsOK, Canvas;
    forall m
      ensures Fits(Canvas(s', m), At(s'.inflight, m)) && Fits(Sent(s', m), At(s'.slot, m))
    {
      SendMoves(s, l, s', m, exact);
    }
    forall k | 0 <= k < |s'.layers|
      ensures InSync(s', s'.layers[k], exact)
    {
      assert InSync(s, s.layers[k], exact);
      SendMoves(s, l, s', s.layers[k].id, exact);
    }
  }

  lemma AppliedCanvas(s: Sys, l: int, s': Sys, exact: bool)
    requires Inv(s, exact) && Step(s, Send(l), s')
    ensures Canvas(s', l) == Apply(Canvas(s, l), s.inflight[l])
  {
    if Apply(Canvas(s, l), s.inflight[l]) == None {
      assert Canvas(s, l) == None;
    }
  }

  lemma TakeKeepsInv(s: Sys, s': Sys, exact: bool)
    requires Inv(s, exact) && Step(s, Take, s')
    ensures Inv(s', exact)
  {
    assert Shape(s');
    forall m
      ensures Drained(s', m) == Drained(s, m)
      ensures Fits(Canvas(s', m), At(s'.inflight, m)) && Fits(Sent(s', m), At(s'.slot, m))
    {
      assert Fits(Canvas(s, m), At(s.inflight, m)) && Fits(Sent(s, m), At(s.slot, m));
      assert Canvas(s', m) == Canvas(s, m) == Sent(s, m);
    }
    forall k | 0 <= k < |s'.layers|
      ensures InSync(s', s'.layers[k], exact)
    {
      assert InSync(s, s.layers[k], exact);
    }
  }

  lemma ParkKeepsInv(s: Sys, a: Action, s': Sys, exact: bool)
    requires Inv(s, exact) && (a.Park? || a.WakeUp?) && Step(s, a, s')
    ensures Inv(s', exact)
  {
    assert Shape(s');
    assert forall l :: Sent(s', l) == Sent(s, l) && Canvas(s', l) == Canvas(s, l);
    forall k | 0 <= k < |s'.layers|
      ensures InSync(s', s'.layers[k], exact)
    {
      assert InSync(s, s.layers[k], exact);
    }
    forall l
      ensures Fits(Canvas(s', l), At(s'.inflight, l)) && Fits(Sent(s', l), At(s'.slot, l))
    {
      assert Fits(Canvas(s, l), At(s.inflight, l)) && Fits(Sent(s, l), At(s.slot, l));
    }
  }

  /** Every step of every stage keeps the invariant. */
  lemma StepKeepsInv(s: Sys, a: Action, s': Sys, exact: bool)
    requires Inv(s, exact) && Step(s, a, s') && (exact && a.Turn? ==> HintWorks(s, a, s'))
    ensures Inv(s', exact)
  {
    hide Inv;
    match a
    case Turn(_, _, _, _, _) => TurnKeepsInv(s, a, s', exact);
    case LeaveVideo => ResetKeepsInv(s, s', exact);
    case KeyRequest => ResetKeepsInv(s, s', exact);
    case DisplaySwitch => ResetKeepsInv(s, s', exact);
    case LayerUpdate(next) => UpdateKeepsInv(s, next, s', exact);
    case Take => TakeKeepsInv(s, s', exact);
    case Send(l) => SendKeepsInv(s, l, s', exact);
    case Park => ParkKeepsInv(s, a, s', exact);
    case WakeUp => ParkKeepsInv(s, a, s', exact);
  }

  ghost predicate IsRun(states: seq<Sys>, acts: seq<Action>) {
    && |states| == |acts| + 1 && Init(states[0])
    && forall i :: 0 <= i < |acts| ==> Shape(states[i]) && Step(states[i], acts[i], states[i + 1])
  }

  /** Every turn's hint works for the layers the turn changes. */
  ghost predicate HintsWork(states: seq<Sys>, acts: seq<Action>)
    requires IsRun(states, acts)
  {
    forall i :: 0 <= i < |acts| && acts[i].Turn? ==> HintWorks(states[i], acts[i], states[i + 1])
  }

  lemma InitInv(s: Sys)
    requires Init(s)
    ensures Inv(s, true)
  {
  }

  lemma ExactIsMore(s: Sys)
    requires Inv(s, true)
    ensures Inv(s, false)
  {
    forall k | 0 <= k < |s.layers|
      ensures InSync(s, s.layers[k], false)
    {
      assert InSync(s, s.layers[k], true);
    }
  }

  /** Any interleaving: the invariant holds in every reachable state, in full if the hints
      work, and all but its pixels whatever the hints say. */
  lemma {:induction false} RunKeepsInv(states: seq<Sys>, acts: seq<Action>, n: nat, exact: bool)
    requires IsRun(states, acts) && n <= |acts| && (exact ==> HintsWork(states, acts))
    ensures Inv(states[n], exact)
  {
    if n == 0 {
      InitInv(states[0]);
      ExactIsMore(states[0]);
    } else {
      RunKeepsInv(states, acts, n - 1, exact);
      StepKeepsInv(states[n - 1], acts[n - 1], states[n], exact);
    }
  }

  /** Nothing pending and nothing being sent: the viewer shows the full scale of the last
      capture the layer processed. */
  lemma DrainedViewerShowsLastFrame(states: seq<Sys>, acts: seq<Action>, n: nat, k: nat)
    requires IsRun(states, acts) && HintsWork(states, acts) && n <= |acts| && k < |states[n].layers|
    requires states[n].slot == map[] && states[n].inflight == map[]
    requires !states[n].active && !states[n].layers[k].needKey
    ensures var st := states[n].layers[k];
            && st.seen.Some? && st.seen.value.Valid()
            && var frame := FullScale(st.seen.value, st.seenWidth);
               NoPixels(frame) || (st.id in states[n].view && states[n].view[st.id] == frame)
  {
    RunKeepsInv(states, acts, n, true);
    assert InSync(states[n], states[n].layers[k], true);
  }

  /** Work in the slot is never stranded: the sender is awake or has a wake-up waiting. */
  lemma PendingWorkWakesSender(states: seq<Sys>, acts: seq<Action>, n: nat)
    requires IsRun(states, acts) && n <= |acts| && states[n].slot != map[]
    ensures !states[n].waiting || states[n].wake
  {
    RunKeepsInv(states, acts, n, false);
  }

  /** No delta is ever sent to a viewer without a canvas of the delta's size, whatever the
      hints say. */
  lemma DeltasAlwaysFit(states: seq<Sys>, acts: seq<Action>, n: nat, l: int)
    requires IsRun(states, acts) && n < |acts| && acts[n] == Send(l)
    ensures l in states[n].inflight
    ensures !states[n].inflight[l].key ==> l in states[n].view && SameSize(states[n].view[l], states[n].inflight[l].frame)
  {
    RunKeepsInv(states, acts, n, false);
    assert Step(states[n], acts[n], states[n + 1]);
    assert Fits(Canvas(states[n], l), At(states[n].inflight, l));
  }
}
