/** The capture stage: one loop turn over the active layers, and changes of the layer set. */
module Capture {
  import opened Geometry
  import opened Raster
  import opened Hint
  import opened Scaler
  import opened Jobs
  import opened Pipe
  import Scale

  const MAX_LAYER_ID: int := 3
  const MIN_LAYER_WIDTH: int := 160

  /** One active layer; the ghost fields remember its last processed capture and what its
      scaler has cached. */
  datatype LayerState = LayerState(id: int, width: int, prev: Option<Img>, needKey: bool, scaler: FrameScaler,
                                   ghost cache: Option<Cache>, ghost seen: Option<Img>, ghost seenWidth: int)

  ghost function Abs(st: LayerState): Layer {
    Layer(st.id, st.width, st.prev, st.needKey, st.cache, st.seen, st.seenWidth)
  }

  ghost predicate ScalerInStep(st: LayerState)
    reads st.scaler
  {
    st.scaler.Valid() && st.scaler.Cached() == st.cache
  }

  function AnyTrue(b: seq<bool>): bool {
    true in b
  }

  /** Scale, decide whether a key is needed, diff: with any hint. */
  method ProcessLayer(st: LayerState, img: Img, hint: SrcHint, width: int, procs: int) returns (st': LayerState, dirty: seq<bool>, tooBig: bool)
    requires ScalerInStep(st) && LayerOK(Abs(st)) && img.Valid()
    modifies st.scaler
    ensures st'.scaler == st.scaler
    ensures !tooBig ==> Frame(st, st', img, hint, width, dirty) && ScalerInStep(st') && LayerOK(Abs(st'))
  {
    hide IsScale, IsFrameDiff, NextCache;
    var frame := st.scaler.ScaleHinted(img, width, hint, procs);
    IsScaleOK(st.cache, img, width, hint, frame);
    st', dirty, tooBig := st, [], false;
    if frame.w > 65535 || frame.h > 65535 {
      tooBig := true;
      return;
    }
    var needKey := st.needKey;
    if st.prev.Some? && !SameSize(st.prev.value, frame) {
      needKey := true;
    }
    var prev := if needKey then None else st.prev;
    dirty := DiffFrame(prev, frame, hint, img.w, img.h);
    st' := LayerState(st.id, st.width, Some(frame), needKey, st.scaler, NextCache(img, width, frame), Some(img), width);
  }

  /** The layer's new frame is the scaler's output, its mask the diff against the old one. */
  ghost predicate Frame(st: LayerState, st': LayerState, img: Img, hint: SrcHint, width: int, dirty: seq<bool>)
    requires img.Valid() && LayerOK(Abs(st))
  {
    && st'.prev.Some?
    && var frame := st'.prev.value;
       && frame.Valid() && frame.w <= 65535 && frame.h <= 65535 && IsScale(st.cache, img, width, hint, frame)
       && Abs(st') == SeenAs(Abs(st), img, width, frame).(needKey := NeedsKey(Abs(st), frame))
       && IsFrameDiff(if st'.needKey then None else st.prev, frame, hint, img.w, img.h, dirty)
  }

  /** The layer after the turn's final "included layers no longer need a key". */
  ghost function Settled(st: LayerState, included: bool): Layer {
    if included then Abs(st).(needKey := false) else Abs(st)
  }

  /** How one loop body left the layer. */
  ghost predicate LayerResult(st: Layer, st': LayerState, img: Img, hint: SrcHint, width: int, active: bool, active': bool, left: bool, job: Option<LayerJob>)
    requires LayerOK(st) && img.Valid()
  {
    && (left <==> active && !active')
    && (job.Some? ==> job.value.layer == st.id)
    && if left then job == None && Watched(st, Abs(st').(needKey := false), img, hint, width)
       else
         || (job == None && Abs(st') == st)
         || (active' && job == None && Watched(st, Abs(st'), img, hint, width))
         || (!active' && Processed(st, Settled(st', job.Some?), img, hint, width, job))
  }

  /** Such a frame is watched, or becomes the layer's update. */
  lemma FrameOutcome(st: LayerState, st': LayerState, img: Img, hint: SrcHint, width: int, dirty: seq<bool>)
    requires img.Valid() && LayerOK(Abs(st)) && Frame(st, st', img, hint, width, dirty)
    ensures Watched(Abs(st), Abs(st').(needKey := false), img, hint, width)
    ensures var job := if st'.needKey || AnyTrue(dirty) then Some(LayerJob(st'.id, st'.prev.value, dirty, st'.needKey)) else None;
            Processed(Abs(st), Abs(st').(needKey := false), img, hint, width, job)
  {
    hide IsScale, IsFrameDiff, NextCache;
    var frame := st'.prev.value;
    assert Abs(st').(needKey := false) == SeenAs(Abs(st), img, width, frame);
    var job := if st'.needKey || AnyTrue(dirty) then Some(LayerJob(st'.id, frame, dirty, st'.needKey)) else None;
    assert ProcessedAs(Abs(st), Abs(st').(needKey := false), img, hint, width, job, frame, dirty);
  }

  /** Loop body for layer i. `vid` is the mode after the video controller has seen layer 0
      (None: no video); `left` tells that this layer ended video mode. */
  method LayerTurn(st: LayerState, i: nat, img: Img, hint: SrcHint, width: int, ready: bool, active: bool, vid: Option<bool>, procs: int)
    returns (st': LayerState, active': bool, left: bool, job: Option<LayerJob>, tooBig: bool)
    requires ScalerInStep(st) && LayerOK(Abs(st)) && img.Valid() && (vid == None ==> !active)
    modifies st.scaler
    ensures st'.scaler == st.scaler
    ensures !tooBig ==> ScalerInStep(st') && LayerOK(Abs(st')) && st'.id == st.id
    ensures !tooBig ==> (left <==> active && !active') && (left ==> i == 0 && vid == Some(false) && job == None) && (vid == None ==> !active') && (i > 0 ==> active' == active)
    ensures !tooBig ==> LayerResult(Abs(st), st', img, hint, width, active, active', left, job)
  {
    st', active', left, job, tooBig := st, active, false, None, false;
    if !(st.needKey || ready) {
      return;
    }
    hide Processed, Watched;
    var dirty;
    st', dirty, tooBig := ProcessLayer(st, img, hint, width, procs);
    if tooBig {
      return;
    }
    FrameOutcome(st, st', img, hint, width, dirty);
    if vid.Some? {
      if i == 0 {
        active' := vid.value;
        left := active && !active';
      }
      if left {
        return;
      }
      if active' {
        st' := st'.(needKey := false);
        return;
      }
    }
    if st'.needKey || AnyTrue(dirty) {
      job := Some(LayerJob(st'.id, st'.prev.value, dirty, st'.needKey));
    }
  }

  class CaptureStage {
    var layers: seq<LayerState>
    var layered: bool
    var maxWidth: int
    var active: bool // video mode

    ghost function Scalers(): set<FrameScaler>
      reads this
    {
      set k | 0 <= k < |layers| :: layers[k].scaler
    }

    ghost predicate Valid()
      reads this, Scalers()
    {
      Ready(layers)
    }

    constructor (layered: bool, maxWidth: int)
      ensures Valid() && !active && this.layered == layered && this.maxWidth == maxWidth
      ensures layered ==> layers == []
      ensures !layered ==> |layers| == 1 && Abs(layers[0]) == Layer(-1, 0, None, true, None, None, 0)
      ensures fresh(Scalers())
    {
      this.layered, this.maxWidth, active := layered, maxWidth, false;
      layers := [];
      new;
      if !layered {
        var sc := new FrameScaler();
        layers := [LayerState(-1, 0, None, true, sc, None, None, 0)];
      }
    }

    /** The part of captureLoop between a capture and the slot: every layer ends in one of
        the outcomes of the state machine, and the job holds exactly their updates. */
    method Turn(img: Img, hint: SrcHint, ready: seq<bool>, vid: Option<bool>, procs: int) returns (job: seq<LayerJob>, tooBig: bool)
      requires Valid() && img.Valid() && |ready| == |layers| && (vid == None ==> !active)
      modifies this, Scalers()
      ensures layered == old(layered) && maxWidth == old(maxWidth)
      ensures !tooBig ==> Valid() && Unique(job) && TurnDone(old(layers), layers, |layers|, old(active), active, img, hint, layered, maxWidth, job, [])
      ensures !tooBig ==> |layers| == |old(layers)| && forall k :: 0 <= k < |layers| ==> layers[k].scaler == old(layers[k].scaler)
    {
      hide TurnDone, LoopInv, LayerOK, ScalerInStep;
      ghost var was := layers;
      var ts := TurnState(layers, active, [], []);
      tooBig := false;
      TurnStart(was, active, vid, img, hint, layered, maxWidth);
      var i := 0;
      while i < |ts.ls|
        modifies Scalers()
        invariant 0 <= i <= |ts.ls| == |was|
        invariant LoopInv(was, active, vid, ts, i, img, hint, layered, maxWidth)
      {
        LoopScaler(was, active, vid, ts, i, img, hint, layered, maxWidth);
        ts, tooBig := TurnBody(was, active, vid, ts, i, img, hint, layered, maxWidth, ready[i], procs);
        if tooBig {
          return [], true;
        }
        i := i + 1;
      }
      LoopRanges(was, active, vid, ts, img, hint, layered, maxWidth);
      var r := ClearKeys(ts.ls, ts.included);
      LoopDone(was, active, vid, ts, r, img, hint, layered, maxWidth);
      layers, active, job := r, ts.active, ts.job;
    }
  }

  /** Local variables of a turn. */
  datatype TurnState = TurnState(ls: seq<LayerState>, active: bool, job: seq<LayerJob>, included: seq<int>)

  ghost predicate LoopInv(was: seq<LayerState>, before: bool, vid: Option<bool>, ts: TurnState, i: nat, img: Img, hint: SrcHint, layered: bool, maxWidth: int)
    reads set k | 0 <= k < |ts.ls| :: ts.ls[k].scaler
  {
    && i <= |ts.ls| == |was| && Ready(ts.ls) && SameObjects(was, ts.ls)
    && (i == 0 ==> ts.active == before)
    && (vid == None ==> !ts.active)
    && (before && !ts.active ==> vid == Some(false))
    && (forall k :: i <= k < |was| ==> Abs(ts.ls[k]) == Expected(was[k], before, ts.active))
    && Unique(ts.job)
    && (forall k :: 0 <= k < |ts.included| ==> 0 <= ts.included[k] < i)
    && (forall k :: 0 <= k < |was| ==> LayerOK(Abs(was[k])))
    && TurnDone(was, ts.ls, i, before, ts.active, img, hint, layered, maxWidth, ts.job, ts.included)
  }

  /** A layer that has not had its turn yet: reset if video mode ended meanwhile. */
  ghost function Expected(st: LayerState, before: bool, now: bool): Layer {
    if before && !now then Reset(Abs(st)) else Abs(st)
  }

  lemma TurnStart(was: seq<LayerState>, active: bool, vid: Option<bool>, img: Img, hint: SrcHint, layered: bool, maxWidth: int)
    requires Ready(was) && img.Valid() && (vid == None ==> !active)
    ensures LoopInv(was, active, vid, TurnState(was, active, [], []), 0, img, hint, layered, maxWidth)
  {
  }

  lemma LoopScaler(was: seq<LayerState>, before: bool, vid: Option<bool>, ts: TurnState, i: nat, img: Img, hint: SrcHint, layered: bool, maxWidth: int)
    requires LoopInv(was, before, vid, ts, i, img, hint, layered, maxWidth) && i < |was|
    ensures ts.ls[i].scaler == was[i].scaler
  {
  }

  lemma LoopRanges(was: seq<LayerState>, before: bool, vid: Option<bool>, ts: TurnState, img: Img, hint: SrcHint, layered: bool, maxWidth: int)
    requires LoopInv(was, before, vid, ts, |was|, img, hint, layered, maxWidth)
    ensures Unique(ts.job) && |ts.ls| == |was| && forall k :: 0 <= k < |ts.included| ==> 0 <= ts.included[k] < |ts.ls|
  {
  }

  lemma LoopDone(was: seq<LayerState>, before: bool, vid: Option<bool>, ts: TurnState, r: seq<LayerState>, img: Img, hint: SrcHint, layered: bool, maxWidth: int)
    requires LoopInv(was, before, vid, ts, |was|, img, hint, layered, maxWidth)
    requires |r| == |ts.ls| && forall k :: 0 <= k < |r| ==> r[k] == if k in ts.included then ts.ls[k].(needKey := false) else ts.ls[k]
    ensures Ready(r) && SameObjects(was, r)
    ensures TurnDone(was, r, |r|, before, ts.active, img, hint, layered, maxWidth, ts.job, [])
  {
    hide TurnDone, ScalerInStep, LayerOK;
    StillReady(ts.ls, r);
    TurnSettled(was, ts.ls, r, before, ts.active, img, hint, layered, maxWidth, ts.job, ts.included);
  }

  /** One pass through the loop. */
  method TurnBody(ghost was: seq<LayerState>, ghost before: bool, vid: Option<bool>, ts: TurnState, i: nat, img: Img, hint: SrcHint,
                  layered: bool, maxWidth: int, ready: bool, procs: int) returns (ts': TurnState, tooBig: bool)
    requires LoopInv(was, before, vid, ts, i, img, hint, layered, maxWidth) && i < |was| && img.Valid()
    modifies ts.ls[i].scaler
    ensures |ts'.ls| == |ts.ls|
    ensures !tooBig ==> LoopInv(was, before, vid, ts', i + 1, img, hint, layered, maxWidth)
  {
    hide TurnDone, LayerResult, Processed, Outcome, LayerOK, ScalerInStep, FullScale, AsMap;
    var st := ts.ls[i];
    var st', active', left, j, big := LayerTurn(st, i, img, hint, if layered then st.width else maxWidth, ready, ts.active, vid, procs);
    if big {
      return ts, true;
    }
    TurnNext(was, ts.ls, i, before, ts.active, active', img, hint, layered, maxWidth, ts.job, ts.included, st', left, j);
    var ls := ts.ls[i := st'];
    assert Ready(ls) && SameObjects(was, ls);
    if left {
      var r := ResetAll(ls);
      StillReady(ls, r);
      assert r[i] == ts.ls[i := st'.(prev := None, needKey := true)][i];
      TurnSame(was, ts.ls[i := st'.(prev := None, needKey := true)], r, i + 1, before, active', img, hint, layered, maxWidth, ts.job, ts.included);
      ts', tooBig := TurnState(r, active', ts.job, ts.included), false;
    } else if j.Some? {
      JobOfLayer(Abs(st), st', img, hint, if layered then st.width else maxWidth, active', j.value);
      AppendUnique(ts.job, j.value);
      ts', tooBig := TurnState(ls, active', ts.job + [j.value], ts.included + [i]), false;
    } else {
      ts', tooBig := TurnState(ls, active', ts.job, ts.included), false;
    }
  }

  ghost predicate Ready(ls: seq<LayerState>)
    reads set k | 0 <= k < |ls| :: ls[k].scaler
  {
    && (forall k :: 0 <= k < |ls| ==> ScalerInStep(ls[k]) && LayerOK(Abs(ls[k])))
    && (forall k, m :: 0 <= k < m < |ls| ==> ls[k].scaler != ls[m].scaler && ls[k].id != ls[m].id)
  }

  ghost predicate SameObjects(was: seq<LayerState>, ls: seq<LayerState>) {
    |ls| == |was| && forall k :: 0 <= k < |ls| ==> ls[k].scaler == was[k].scaler && ls[k].id == was[k].id
  }

  /** The first n layers have had their turn. */
  ghost predicate TurnDone(was: seq<LayerState>, ls: seq<LayerState>, n: nat, before: bool, now: bool, img: Img, hint: SrcHint,
                           layered: bool, maxWidth: int, job: seq<LayerJob>, included: seq<int>)
  {
    && n <= |ls| == |was| && img.Valid()
    && (forall k :: 0 <= k < n ==>
                      && LayerOK(Abs(was[k]))
                      && Outcome(Abs(was[k]), Settled(ls[k], k in included), before, now, img, hint,
                                 if layered then was[k].width else maxWidth, At(AsMap(job), was[k].id)))
    && (forall l :: l in AsMap(job) ==> exists k :: 0 <= k < n && was[k].id == l)
  }

  /** Leaving video: every layer loses its previous frame and asks for a key. */
  method ResetAll(ls: seq<LayerState>) returns (r: seq<LayerState>)
    ensures |r| == |ls| && forall k :: 0 <= k < |ls| ==> r[k] == ls[k].(prev := None, needKey := true)
  {
    r := ls;
    var k := 0;
    while k < |r|
      invariant 0 <= k <= |r| == |ls|
      invariant forall m :: 0 <= m < |r| ==> r[m] == if m < k then ls[m].(prev := None, needKey := true) else ls[m]
    {
      r := r[k := r[k].(prev := None, needKey := true)];
      k := k + 1;
    }
  }

  lemma TurnSame(was: seq<LayerState>, a: seq<LayerState>, b: seq<LayerState>, n: nat, before: bool, now: bool, img: Img, hint: SrcHint,
                 layered: bool, maxWidth: int, job: seq<LayerJob>, included: seq<int>)
    requires TurnDone(was, a, n, before, now, img, hint, layered, maxWidth, job, included)
    requires |a| == |b| && forall k :: 0 <= k < n ==> a[k] == b[k]
    ensures TurnDone(was, b, n, before, now, img, hint, layered, maxWidth, job, included)
  {
  }

  /** Dropping previous frames or key flags leaves the scalers in step. */
  lemma StillReady(ls: seq<LayerState>, r: seq<LayerState>)
    requires Ready(ls) && |r| == |ls|
    requires forall k :: 0 <= k < |ls| ==> r[k] == ls[k] || r[k] == ls[k].(needKey := false) || r[k] == ls[k].(prev := None, needKey := true)
    ensures Ready(r) && SameObjects(ls, r)
  {
    hide FullScale, FrameScaler.Valid;
  }

  lemma JobOfLayer(st: Layer, st': LayerState, img: Img, hint: SrcHint, width: int, active': bool, j: LayerJob)
    requires LayerOK(st) && img.Valid()
    requires exists active, left :: LayerResult(st, st', img, hint, width, active, active', left, Some(j))
    ensures j.layer == st.id
  {
  }

  lemma AppendUnique(job: seq<LayerJob>, j: LayerJob)
    requires Unique(job) && j.layer !in AsMap(job)
    ensures Unique(job + [j])
  {
    forall k | 0 <= k < |job|
      ensures job[k].layer != j.layer
    {
      AsMapKeys(job, job[k].layer);
    }
  }

  lemma TurnNext(was: seq<LayerState>, ls: seq<LayerState>, i: nat, before: bool, now: bool, now': bool, img: Img, hint: SrcHint,
                 layered: bool, maxWidth: int, job: seq<LayerJob>, included: seq<int>, st': LayerState, left: bool, j: Option<LayerJob>)
    requires TurnDone(was, ls, i, before, now, img, hint, layered, maxWidth, job, included) && i < |was|
    requires forall k, m :: 0 <= k < m < |was| ==> was[k].id != was[m].id
    requires forall k :: 0 <= k < |included| ==> 0 <= included[k] < i
    requires (i == 0 ==> now == before) && (i > 0 ==> now' == now && !left)
    requires LayerOK(Abs(was[i]))
    requires var st := if before && !now then Reset(Abs(was[i])) else Abs(was[i]);
             LayerResult(st, st', img, hint, if layered then was[i].width else maxWidth, now, now', left, j)
    ensures var ls' := ls[i := if left then st'.(prev := None, needKey := true) else st'];
            var job' := if j.Some? then job + [j.value] else job;
            var inc' := if j.Some? then included + [i] else included;
            TurnDone(was, ls', i + 1, before, now', img, hint, layered, maxWidth, job', inc')
    ensures was[i].id !in AsMap(job)
  {
    hide Processed, Watched, LayerOK;
    if j.Some? {
      hide AsMap;
      AsMapAppend(job, j.value);
    }
  }

  lemma TurnSettled(was: seq<LayerState>, ls: seq<LayerState>, ls': seq<LayerState>, before: bool, now: bool, img: Img, hint: SrcHint,
                    layered: bool, maxWidth: int, job: seq<LayerJob>, included: seq<int>)
    requires TurnDone(was, ls, |ls|, before, now, img, hint, layered, maxWidth, job, included)
    requires |ls'| == |ls| && forall k :: 0 <= k < |ls| ==> Abs(ls'[k]) == Settled(ls[k], k in included)
    ensures TurnDone(was, ls', |ls|, before, now, img, hint, layered, maxWidth, job, [])
  {
  }

  method ClearKeys(ls: seq<LayerState>, included: seq<int>) returns (r: seq<LayerState>)
    requires forall k :: 0 <= k < |included| ==> 0 <= included[k] < |ls|
    ensures |r| == |ls| && forall k :: 0 <= k < |ls| ==> r[k] == if k in included then ls[k].(needKey := false) else ls[k]
  {
    r := ls;
    var k := 0;
    while k < |included|
      invariant 0 <= k <= |included| && |r| == |ls|
      invariant forall m :: 0 <= m < |r| ==> r[m] == if m in included[..k] then ls[m].(needKey := false) else ls[m]
    {
      r := r[included[k] := r[included[k]].(needKey := false)];
      assert included[..k + 1] == included[..k] + [included[k]];
      k := k + 1;
    }
    assert included[..k] == included;
  }

  ghost function AbsAll(ls: seq<LayerState>): seq<Layer> {
    seq(|ls|, k requires 0 <= k < |ls| => Abs(ls[k]))
  }

  /** A turn of the stage followed by putting its job is a step of the state machine. */
  lemma TurnIsStep(s: Sys, was: seq<LayerState>, ls: seq<LayerState>, now: bool, img: Img, hint: SrcHint, layered: bool, maxWidth: int, job: seq<LayerJob>, s': Sys)
    requires Shape(s) && s.layers == AbsAll(was)
    requires TurnDone(was, ls, |ls|, s.active, now, img, hint, layered, maxWidth, job, [])
    requires s' == s.(layers := AbsAll(ls), active := now, lastSrc := Some(img),
                      slot := if job == [] then s.slot else MergeMap(s.slot, AsMap(job)), wake := s.wake || job != [],
                      missed := MissedAfter(s, AbsAll(ls), img, hint))
    ensures Step(s, Turn(img, hint, seq(|was|, k requires 0 <= k < |was| => if layered then was[k].width else maxWidth), now, AsMap(job)), s')
  {
    hide Outcome, MergeMap, MissedAfter;
    if job != [] {
      AsMapKeys(job, job[0].layer);
    }
    forall l | l in AsMap(job)
      ensures exists k :: 0 <= k < |s.layers| && s.layers[k].id == l
    {
      var k :| 0 <= k < |was| && was[k].id == l;
      assert s.layers[k].id == l;
    }
  }

  // ---- changing the set of layers ----

  /** A layer the server asks for; maxWidth <= 0 means "choose". */
  datatype Spec = Spec(id: int, maxWidth: int)

  /** Width of layer 0 as far as the list says. */
  function BaseWidth(all: seq<Spec>): int {
    if all == [] then Scale.DEFAULT_MAX_WIDTH
    else if all[|all| - 1].id == 0 && all[|all| - 1].maxWidth > 0 then all[|all| - 1].maxWidth
    else BaseWidth(all[..|all| - 1])
  }

  function LayerWidth(sp: Spec, all: seq<Spec>): int {
    if sp.maxWidth > 0 then sp.maxWidth
    else if sp.id == 0 then Scale.DEFAULT_MAX_WIDTH
    else Max(BaseWidth(all) / 2, MIN_LAYER_WIDTH)
  }

  predicate GoodId(id: int) {
    0 <= id <= MAX_LAYER_ID
  }

  /** The first entry for this id decides its width. */
  ghost predicate WidthFrom(specs: seq<Spec>, n: nat, id: int, w: int)
    requires n <= |specs|
  {
    exists k :: 0 <= k < n && specs[k].id == id && w == LayerWidth(specs[k], specs) && forall m :: 0 <= m < k ==> specs[m].id != id
  }

  ghost function Find(ls: seq<LayerState>, id: int): Option<Layer> {
    if ls == [] then None
    else if ls[|ls| - 1].id == id then Some(Abs(ls[|ls| - 1]))
    else Find(ls[..|ls| - 1], id)
  }

  lemma {:induction false} FindAt(ls: seq<LayerState>, id: int)
    ensures Find(ls, id).Some? ==> exists k :: 0 <= k < |ls| && ls[k].id == id && Find(ls, id) == Some(Abs(ls[k]))
    ensures Find(ls, id).None? ==> forall k :: 0 <= k < |ls| ==> ls[k].id != id
  {
    if ls != [] && ls[|ls| - 1].id != id {
      FindAt(ls[..|ls| - 1], id);
    }
  }

  /** The layers asked for so far, ordered by id, each updated from its previous state. */
  ghost predicate UpdateUpTo(was: seq<LayerState>, next: seq<LayerState>, specs: seq<Spec>, n: nat, key: bool)
    requires n <= |specs|
  {
    && (forall k, m :: 0 <= k < m < |next| ==> next[k].id < next[m].id)
    && (forall k :: 0 <= k < |next| ==> GoodEntry(was, next[k], specs, n, key))
    && (forall k :: 0 <= k < n && GoodId(specs[k].id) ==> Has(next, specs[k].id))
  }

  ghost predicate GoodEntry(was: seq<LayerState>, st: LayerState, specs: seq<Spec>, n: nat, key: bool)
    requires n <= |specs|
  {
    GoodId(st.id) && WidthFrom(specs, n, st.id, st.width) && Abs(st) == Updated(Find(was, st.id), st.id, st.width, key)
  }

  ghost predicate Has(ls: seq<LayerState>, id: int) {
    exists m :: 0 <= m < |ls| && ls[m].id == id
  }

  /** Keeps the list ordered by id. */
  method InsertById(next: seq<LayerState>, st: LayerState) returns (r: seq<LayerState>, at: nat)
    requires forall k, m :: 0 <= k < m < |next| ==> next[k].id < next[m].id
    requires forall k :: 0 <= k < |next| ==> next[k].id != st.id
    ensures at <= |next| && r == next[..at] + [st] + next[at..]
    ensures forall k, m :: 0 <= k < m < |r| ==> r[k].id < r[m].id
  {
    at := 0;
    while at < |next| && next[at].id < st.id
      invariant 0 <= at <= |next| && forall k :: 0 <= k < at ==> next[k].id < st.id
    {
      at := at + 1;
    }
    r := next[..at] + [st] + next[at..];
  }

  method FindIndex(ls: seq<LayerState>, id: int) returns (i: int)
    ensures if i < 0 then forall k :: 0 <= k < |ls| ==> ls[k].id != id else i < |ls| && ls[i].id == id
  {
    i := 0;
    while i < |ls|
      invariant 0 <= i <= |ls| && forall k :: 0 <= k < i ==> ls[k].id != id
    {
      if ls[i].id == id {
        return;
      }
      i := i + 1;
    }
    i := -1;
  }

  /** Nothing but a key request. */
  method RequestKeys(cur: seq<LayerState>, key: bool) returns (next: seq<LayerState>)
    ensures |next| == |cur| && forall k :: 0 <= k < |cur| ==> next[k] == cur[k].(needKey := cur[k].needKey || key)
  {
    next := [];
    var i := 0;
    while i < |cur|
      invariant 0 <= i <= |cur| && |next| == i
      invariant forall k :: 0 <= k < i ==> next[k] == cur[k].(needKey := cur[k].needKey || key)
    {
      next := next + [cur[i].(needKey := cur[i].needKey || key)];
      i := i + 1;
    }
  }

  /** New and resized layers ask for a key; a layer not asked for is gone. */
  method ApplyLayerUpdate(cur: seq<LayerState>, specs: seq<Spec>, key: bool) returns (next: seq<LayerState>, ghost made: set<FrameScaler>)
    requires Ready(cur)
    ensures UpdateUpTo(cur, next, specs, |specs|, key)
    ensures fresh(made) && Owned(cur, next, made) && Ready(next)
  {
    hide UpdateUpTo, Owned, AllInStep;
    next, made := [], {};
    UpdateNone(cur, specs, key);
    var n := 0;
    while n < |specs|
      invariant 0 <= n <= |specs| && UpdateUpTo(cur, next, specs, n, key)
      invariant fresh(made) && Owned(cur, next, made) && AllInStep(next)
    {
      next, made := AddLayer(cur, next, specs, n, key, made);
      n := n + 1;
    }
    UpdatedReady(cur, next, specs, key, made);
  }

  lemma UpdatedReady(cur: seq<LayerState>, next: seq<LayerState>, specs: seq<Spec>, key: bool, made: set<FrameScaler>)
    requires UpdateUpTo(cur, next, specs, |specs|, key) && Owned(cur, next, made) && AllInStep(next)
    ensures Ready(next)
  {
  }

  ghost predicate AllInStep(ls: seq<LayerState>)
    reads set k | 0 <= k < |ls| :: ls[k].scaler
  {
    forall k :: 0 <= k < |ls| ==> ScalerInStep(ls[k]) && LayerOK(Abs(ls[k]))
  }

  /** One entry of the update. */
  method AddLayer(cur: seq<LayerState>, next: seq<LayerState>, specs: seq<Spec>, n: nat, key: bool, ghost made: set<FrameScaler>)
    returns (r: seq<LayerState>, ghost made': set<FrameScaler>)
    requires Ready(cur) && n < |specs| && UpdateUpTo(cur, next, specs, n, key) && Owned(cur, next, made) && AllInStep(next)
    ensures UpdateUpTo(cur, r, specs, n + 1, key)
    ensures fresh(made' - made) && Owned(cur, r, made') && AllInStep(r)
  {
    hide UpdateUpTo, ScalerInStep, LayerOK, Updated;
    var sp := specs[n];
    var dup := FindIndex(next, sp.id);
    if !GoodId(sp.id) || dup >= 0 {
      UpdateSkip(cur, next, specs, n, key);
      return next, made;
    }
    var st := UpdateOne(cur, sp.id, LayerWidth(sp, specs), key);
    UpdateSorted(cur, next, specs, n, key);
    UpdatedKeepsId(Find(cur, sp.id), sp.id, LayerWidth(sp, specs), key);
    var at;
    r, at := InsertById(next, st);
    UpdateNext(cur, next, specs, n, key, st, r, at);
    made' := if OldScaler(cur, st) then made else made + {st.scaler};
    OwnedInsert(cur, next, made, st, r, at, made');
  }

  /** Scalers of the new list: taken over from the layer with the same id, or new. */
  ghost predicate Owned(cur: seq<LayerState>, next: seq<LayerState>, made: set<FrameScaler>) {
    && (forall k :: 0 <= k < |next| ==> OldScaler(cur, next[k]) || next[k].scaler in made)
    && (forall k :: 0 <= k < |cur| ==> cur[k].scaler !in made)
    && (forall k, m :: 0 <= k < m < |next| ==> next[k].scaler != next[m].scaler)
  }

  lemma OwnedInsert(cur: seq<LayerState>, next: seq<LayerState>, made: set<FrameScaler>, st: LayerState, r: seq<LayerState>, at: nat, made': set<FrameScaler>)
    requires Owned(cur, next, made) && Ready(cur)
    requires at <= |next| && r == next[..at] + [st] + next[at..]
    requires forall k :: 0 <= k < |next| ==> next[k].id != st.id
    requires made' == if OldScaler(cur, st) then made else made + {st.scaler}
    requires !OldScaler(cur, st) ==> (forall k :: 0 <= k < |next| ==> next[k].scaler != st.scaler) && (forall k :: 0 <= k < |cur| ==> cur[k].scaler != st.scaler)
    ensures Owned(cur, r, made')
  {
    hide ScalerInStep, LayerOK;
    forall k | 0 <= k < |next|
      ensures next[k].scaler != st.scaler
    {
      if OldScaler(cur, st) && OldScaler(cur, next[k]) {
        var a :| 0 <= a < |cur| && st.scaler == cur[a].scaler && st.id == cur[a].id;
        var b :| 0 <= b < |cur| && next[k].scaler == cur[b].scaler && next[k].id == cur[b].id;
      }
    }
  }

  ghost predicate OldScaler(cur: seq<LayerState>, st: LayerState) {
    exists m :: 0 <= m < |cur| && st.scaler == cur[m].scaler && st.id == cur[m].id
  }

  method UpdateOne(cur: seq<LayerState>, id: int, w: int, key: bool) returns (st: LayerState)
    requires Ready(cur)
    ensures Abs(st) == Updated(Find(cur, id), id, w, key)
    ensures ScalerInStep(st) && LayerOK(Abs(st))
    ensures fresh(st.scaler) || OldScaler(cur, st)
  {
    var i := FindIndex(cur, id);
    FindAt(cur, id);
    if i < 0 {
      var sc := new FrameScaler();
      st := LayerState(id, w, None, true, sc, None, None, 0);
    } else {
      st := cur[i];
      if st.width != w {
        st := st.(prev := None, needKey := true);
      }
      st := st.(id := id, width := w);
      if key {
        st := st.(needKey := true);
      }
    }
  }

  lemma WidthGrows(specs: seq<Spec>, n: nat)
    requires n < |specs|
    ensures forall id, w :: WidthFrom(specs, n, id, w) ==> WidthFrom(specs, n + 1, id, w)
  {
  }

  lemma UpdateNone(was: seq<LayerState>, specs: seq<Spec>, key: bool)
    ensures UpdateUpTo(was, [], specs, 0, key) && Owned(was, [], {}) && AllInStep([])
  {
  }

  lemma UpdateSorted(was: seq<LayerState>, next: seq<LayerState>, specs: seq<Spec>, n: nat, key: bool)
    requires n <= |specs| && UpdateUpTo(was, next, specs, n, key)
    ensures forall k, m :: 0 <= k < m < |next| ==> next[k].id < next[m].id
  {
  }

  lemma UpdateSkip(was: seq<LayerState>, next: seq<LayerState>, specs: seq<Spec>, n: nat, key: bool)
    requires n < |specs| && UpdateUpTo(was, next, specs, n, key) && (!GoodId(specs[n].id) || Has(next, specs[n].id))
    ensures UpdateUpTo(was, next, specs, n + 1, key)
  {
  }

  lemma UpdateNext(was: seq<LayerState>, next: seq<LayerState>, specs: seq<Spec>, n: nat, key: bool, st: LayerState, r: seq<LayerState>, at: nat)
    requires n < |specs| && UpdateUpTo(was, next, specs, n, key) && GoodId(specs[n].id)
    requires forall k :: 0 <= k < |next| ==> next[k].id != specs[n].id
    requires Abs(st) == Updated(Find(was, specs[n].id), specs[n].id, LayerWidth(specs[n], specs), key)
    requires at <= |next| && r == next[..at] + [st] + next[at..]
    requires forall k, m :: 0 <= k < m < |r| ==> r[k].id < r[m].id
    ensures UpdateUpTo(was, r, specs, n + 1, key)
  {
    hide Updated, WidthFrom;
    UpdatedKeepsId(Find(was, specs[n].id), specs[n].id, LayerWidth(specs[n], specs), key);
    FirstOfId(was, next, specs, n, key);
    NewWidth(specs, n);
    WidthGrows(specs, n);
    assert GoodEntry(was, st, specs, n + 1, key);
    assert forall k :: 0 <= k < |next| ==> GoodEntry(was, next[k], specs, n, key) && GoodEntry(was, next[k], specs, n + 1, key);
    hide GoodEntry;
    Inserted(next, st, r, at);
    hide Has;
    assert forall k :: 0 <= k < n && GoodId(specs[k].id) ==> Has(next, specs[k].id);
  }

  lemma Inserted(next: seq<LayerState>, st: LayerState, r: seq<LayerState>, at: nat)
    requires at <= |next| && r == next[..at] + [st] + next[at..]
    ensures forall k :: 0 <= k < |r| ==> r[k] == if k < at then next[k] else if k == at then st else next[k - 1]
    ensures Has(r, st.id) && forall id :: Has(next, id) ==> Has(r, id)
  {
    assert r[at] == st;
    forall id | Has(next, id)
      ensures Has(r, id)
    {
      var m :| 0 <= m < |next| && next[m].id == id;
      assert r[if m < at then m else m + 1] == next[m];
    }
  }

  lemma NewWidth(specs: seq<Spec>, n: nat)
    requires n < |specs| && forall m :: 0 <= m < n ==> specs[m].id != specs[n].id
    ensures WidthFrom(specs, n + 1, specs[n].id, LayerWidth(specs[n], specs))
  {
  }

  lemma FirstOfId(was: seq<LayerState>, next: seq<LayerState>, specs: seq<Spec>, n: nat, key: bool)
    requires n < |specs| && UpdateUpTo(was, next, specs, n, key) && GoodId(specs[n].id)
    requires forall k :: 0 <= k < |next| ==> next[k].id != specs[n].id
    ensures forall m :: 0 <= m < n ==> specs[m].id != specs[n].id
  {
  }

  lemma UpdatedKeepsId(st: Option<Layer>, id: int, w: int, key: bool)
    ensures Updated(st, id, w, key).id == id && Updated(st, id, w, key).width == w
  {
  }

  /** An update of the layer set is a step of the state machine. */
  lemma UpdateIsStep(s: Sys, cur: seq<LayerState>, next: seq<LayerState>, specs: seq<Spec>, key: bool)
    requires Shape(s) && s.layers == AbsAll(cur) && UpdateUpTo(cur, next, specs, |specs|, key)
    ensures Step(s, LayerUpdate(AbsAll(next)), s.(layers := AbsAll(next)))
  {
    hide Updated;
    var nx := AbsAll(next);
    assert forall k :: 0 <= k < |nx| ==> nx[k].id == next[k].id;
    forall k | 0 <= k < |nx|
      ensures ComesFrom(s.layers, nx[k])
    {
      assert GoodEntry(cur, next[k], specs, |specs|, key);
      FindAt(cur, next[k].id);
      var st := Find(cur, next[k].id);
      if st.Some? {
        var m :| 0 <= m < |cur| && cur[m].id == next[k].id && st == Some(Abs(cur[m]));
        assert s.layers[m] == st.value;
      }
      assert nx[k] == Updated(st, nx[k].id, nx[k].width, key);
    }
  }

  /** The pending layer update: the newest list wins, a key request is never lost.
      `calls` are the SetLayers calls since the last take. */
  class LayerInbox {
    var isSet: bool
    var specs: seq<Spec>
    var key: bool
    ghost var calls: seq<(seq<Spec>, bool)>

    ghost predicate Valid()
      reads this
    {
      && (isSet <==> calls != [])
      && specs == (if calls == [] then [] else calls[|calls| - 1].0)
      && (key <==> exists k :: 0 <= k < |calls| && calls[k].1)
    }

    constructor ()
      ensures Valid() && calls == []
    {
      isSet, specs, key, calls := false, [], false, [];
    }

    method SetLayers(l: seq<Spec>, k: bool)
      requires Valid()
      modifies this
      ensures Valid() && calls == old(calls) + [(l, k)]
    {
      isSet, specs, key := true, l, key || k;
      calls := calls + [(l, k)];
      assert k ==> calls[|calls| - 1].1;
      assert forall m :: 0 <= m < |old(calls)| ==> calls[m] == old(calls)[m];
    }

    method Take() returns (wasSet: bool, l: seq<Spec>, k: bool)
      requires Valid()
      modifies this
      ensures Valid() && calls == []
      ensures wasSet <==> old(calls) != []
      ensures wasSet ==> l == old(calls)[|old(calls)| - 1].0
      ensures k <==> exists m :: 0 <= m < |old(calls)| && old(calls)[m].1
    {
      wasSet, l, k := isSet, specs, key;
      isSet, specs, key, calls := false, [], false, [];
    }
  }
}
