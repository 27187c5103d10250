/** Rate control: quality and frame rate from write times, ceilings from feedback. Times are
    in nanoseconds. */
module Adapt {
  import opened Geometry
  import opened Raster

  const SECOND: int := 1_000_000_000
  const MIN_QUALITY: int := 35
  const MIN_FPS: int := 3
  const RAISE_AFTER: int := 4
  const RAISE_FPS: int := 3
  const SLOW_STREAK: int := 2
  const SLOW_WRITE: int := 250_000_000
  const FB_TTL: int := 4 * SECOND
  const FB_QUEUE_SLOW: int := 300
  const FB_RAISE_MS: int := 1000
  const FB_RAISE_STEP: int := 2
  const FB_MIN_QUALITY: int := 30
  const FB_DROP_STEP: int := 5
  const FB_DROP_MAX: int := 60

  datatype Ctl = Ctl(maxQ: int, maxFPS: int, q: int, fps: int, good: int, slow: int)

  /** 1 <= q <= maxQ and 1 <= fps <= maxFPS: the interval never divides by zero. */
  predicate CtlOK(c: Ctl) {
    1 <= c.q <= c.maxQ <= 100 && 1 <= c.fps <= c.maxFPS && 0 <= c.good < RAISE_AFTER && 0 <= c.slow < SLOW_STREAK
  }

  function MinQ(c: Ctl): int {
    Min(MIN_QUALITY, c.maxQ)
  }

  function MinFPS(c: Ctl): int {
    Min(MIN_FPS, c.maxFPS)
  }

  function Interval(c: Ctl): int
    requires c.fps > 0
  {
    SECOND / c.fps
  }

  function Lowered(c: Ctl): Ctl {
    c.(slow := 0, good := 0, q := Max(c.q - 10, MinQ(c)), fps := Max(c.fps * 3 / 4, MinFPS(c)))
  }

  function Raised(c: Ctl): Ctl {
    c.(good := 0, slow := 0, fps := Min(c.fps + RAISE_FPS, c.maxFPS), q := Min(c.q + 5, c.maxQ))
  }

  /** One observed write time. */
  function Observed(c: Ctl, write: int): Ctl
    requires c.fps > 0
  {
    var iv := Interval(c);
    if write > iv then
      if write > SLOW_WRITE || write > 3 * iv || c.slow + 1 >= SLOW_STREAK then Lowered(c)
      else c.(good := 0, slow := c.slow + 1)
    else if write < iv / 4 then
      if c.good + 1 >= RAISE_AFTER then Raised(c) else c.(good := c.good + 1, slow := 0)
    else c.(good := 0, slow := 0)
  }

  /** Feedback state of one layer; ceil == 0 means no constraint. */
  datatype Fb = Fb(at: int, ceil: int, cleanMs: int, qDrop: int)

  predicate FbOK(f: Fb) {
    0 <= f.ceil && 0 <= f.cleanMs < FB_RAISE_MS && 0 <= f.qDrop <= FB_DROP_MAX
  }

  predicate Fresh(f: Option<Fb>, now: int) {
    f.Some? && now - f.value.at <= FB_TTL
  }

  /** Go's conversion of a float to int: toward zero. */
  function Truncate(x: real): int {
    if x >= 0.0 then x.Floor else -((-x).Floor)
  }

  predicate Congested(skipped: int, queueMs: int) {
    skipped > 0 || queueMs > FB_QUEUE_SLOW
  }

  /** The feedback state a report leaves: known state counts only while it is fresh. */
  function Fed(c: Ctl, was: Option<Fb>, skipped: int, queueMs: int, rate: real, windowMs: int, now: int): Fb {
    var f := if Fresh(was, now) then was.value else Fb(now, 0, 0, 0);
    if Congested(skipped, queueMs) then
      var t := Min(Max(Truncate(rate * 1.2) + 1, MinFPS(c)), c.maxFPS);
      Fb(now, t, 0, if t <= MinFPS(c) then Min(f.qDrop + FB_DROP_STEP, FB_DROP_MAX) else f.qDrop)
    else
      var ms := f.cleanMs + Min(Max(windowMs, 0), 5000);
      if ms < FB_RAISE_MS then Fb(now, f.ceil, ms, f.qDrop)
      else
        var up := f.ceil + FB_RAISE_STEP;
        Fb(now, if f.ceil > 0 && up < c.maxFPS then up else 0, 0, Max(f.qDrop - FB_DROP_STEP, 0))
  }

  class AdaptCtl {
    var c: Ctl
    var fb: map<int, Fb>

    ghost predicate Valid()
      reads this
    {
      CtlOK(c) && forall id :: id in fb ==> FbOK(fb[id])
    }

    constructor (maxQ: int, maxFPS: int)
      ensures Valid() && fb == map[] && c.q == c.maxQ == Max(1, Min(maxQ, 100)) && c.fps == c.maxFPS == Max(1, maxFPS)
      ensures c.good == 0 && c.slow == 0
    {
      var mq, mf := Max(1, Min(maxQ, 100)), Max(1, maxFPS);
      c := Ctl(mq, mf, mq, mf, 0, 0);
      fb := map[];
    }

    method SetMax(maxQ: int, maxFPS: int)
      requires Valid()
      modifies this
      ensures Valid() && fb == old(fb)
      ensures c.maxQ == Max(1, Min(maxQ, 100)) && c.maxFPS == Max(1, maxFPS)
      ensures c.q == Min(old(c.q), c.maxQ) && c.fps == Min(old(c.fps), c.maxFPS)
      ensures c.good == old(c.good) && c.slow == old(c.slow)
    {
      var mq, mf := maxQ, maxFPS;
      if mq < 1 {
        mq := 1;
      }
      if mq > 100 {
        mq := 100;
      }
      if mf < 1 {
        mf := 1;
      }
      c := c.(maxQ := mq, maxFPS := mf);
      if c.q == 0 || c.q > mq {
        c := c.(q := mq);
      }
      if c.fps == 0 || c.fps > mf {
        c := c.(fps := mf);
      }
    }

    method Observe(write: int) returns (changed: bool)
      requires Valid()
      modifies this
      ensures Valid() && fb == old(fb) && c == Observed(old(c), write)
      ensures changed == (c.q != old(c.q) || c.fps != old(c.fps))
    {
      QuarterIsLess(c);
      var iv := SECOND / c.fps;
      var q0, fps0 := c.q, c.fps;
      var slow := write > iv;
      var severe := write > SLOW_WRITE || write > 3 * iv;
      if slow {
        c := c.(good := 0, slow := c.slow + 1);
      } else {
        c := c.(slow := 0);
      }
      if slow && (severe || c.slow >= SLOW_STREAK) {
        c := c.(slow := 0, q := c.q - 10);
        if c.q < MinQ(c) {
          c := c.(q := MinQ(c));
        }
        c := c.(fps := c.fps * 3 / 4);
        if c.fps < MinFPS(c) {
          c := c.(fps := MinFPS(c));
        }
      } else if write < iv / 4 {
        c := c.(good := c.good + 1);
        if c.good >= RAISE_AFTER {
          c := c.(good := 0, fps := c.fps + RAISE_FPS);
          if c.fps > c.maxFPS {
            c := c.(fps := c.maxFPS);
          }
          c := c.(q := c.q + 5);
          if c.q > c.maxQ {
            c := c.(q := c.maxQ);
          }
        }
      } else if !slow {
        c := c.(good := 0);
      }
      changed := c.q != q0 || c.fps != fps0;
    }

    /** Feedback for one layer: the ceiling drops at once on congestion and recovers in steps. */
    method Feedback(id: int, skipped: int, queueMs: int, rate: real, windowMs: int, now: int)
      requires Valid()
      modifies this
      ensures Valid() && c == old(c)
      ensures fb == old(fb)[id := Fed(c, old(Of(id)), skipped, queueMs, rate, windowMs, now)]
    {
      var f := if id in fb then fb[id] else Fb(0, 0, 0, 0);
      if !(id in fb && now - f.at <= FB_TTL) {
        f := f.(ceil := 0, cleanMs := 0, qDrop := 0);
      }
      f := f.(at := now);
      if skipped > 0 || queueMs > FB_QUEUE_SLOW {
        var t := Truncate(rate * 1.2) + 1;
        t := Min(Max(t, MinFPS(c)), c.maxFPS);
        f := f.(cleanMs := 0, ceil := t);
        if t <= MinFPS(c) {
          f := f.(qDrop := Min(f.qDrop + FB_DROP_STEP, FB_DROP_MAX));
        }
        fb := fb[id := f];
        return;
      }
      var w := if windowMs < 0 then 0 else windowMs;
      f := f.(cleanMs := f.cleanMs + Min(w, 5000));
      if f.cleanMs >= FB_RAISE_MS {
        f := f.(cleanMs := 0);
        if f.qDrop > 0 {
          f := f.(qDrop := Max(f.qDrop - FB_DROP_STEP, 0));
        }
        if f.ceil > 0 {
          f := f.(ceil := f.ceil + FB_RAISE_STEP);
          if f.ceil >= c.maxFPS {
            f := f.(ceil := 0);
          }
        }
      }
      fb := fb[id := f];
    }

    function Of(id: int): Option<Fb>
      reads this
    {
      if id in fb then Some(fb[id]) else None
    }

    /** Between the floor and the local rate or the floor itself; never zero. */
    method LayerFPS(id: int, now: int) returns (f: int)
      requires Valid()
      ensures f == LayerRate(c, Of(id), now)
    {
      f := c.fps;
      if id in fb && now - fb[id].at <= FB_TTL && fb[id].ceil > 0 && fb[id].ceil < f {
        f := fb[id].ceil;
      }
      f := Max(f, if MIN_FPS > c.maxFPS then c.maxFPS else MIN_FPS);
    }

    method LayerQuality(id: int, specQ: int, now: int) returns (q: int)
      requires Valid()
      ensures q == LayerQ(c, Of(id), specQ, now)
    {
      q := c.q;
      if specQ > 0 && specQ < q {
        q := specQ;
      }
      if id in fb && now - fb[id].at <= FB_TTL && fb[id].qDrop > 0 {
        q := Max(q - fb[id].qDrop, Min(q, FB_MIN_QUALITY));
      }
    }
  }

  function LayerRate(c: Ctl, f: Option<Fb>, now: int): int {
    var r := if Fresh(f, now) && 0 < f.value.ceil < c.fps then f.value.ceil else c.fps;
    Max(r, MinFPS(c))
  }

  function LayerQ(c: Ctl, f: Option<Fb>, specQ: int, now: int): int {
    var q := if 0 < specQ < c.q then specQ else c.q;
    if Fresh(f, now) && f.value.qDrop > 0 then Max(q - f.value.qDrop, Min(q, FB_MIN_QUALITY)) else q
  }

  /** The controller stays in range whatever is observed. */
  lemma ObservedInRange(c: Ctl, write: int)
    requires CtlOK(c)
    ensures CtlOK(Observed(c, write))
    ensures Observed(c, write).maxQ == c.maxQ && Observed(c, write).maxFPS == c.maxFPS
  {
  }

  lemma QuarterIsLess(c: Ctl)
    requires c.fps > 0
    ensures 0 <= Interval(c) / 4 <= Interval(c)
  {
  }

  /** Layer rate and quality stay within the controller's bounds, so a layer's interval
      never divides by zero; a quality is lowered to 30 at most. */
  lemma LayerBounds(c: Ctl, f: Option<Fb>, specQ: int, now: int)
    requires CtlOK(c) && (f.Some? ==> FbOK(f.value))
    ensures 1 <= MinFPS(c) <= LayerRate(c, f, now) <= Max(c.fps, MinFPS(c)) <= c.maxFPS
    ensures 1 <= LayerQ(c, f, specQ, now) <= c.q
    ensures LayerQ(c, f, specQ, now) >= Min(if 0 < specQ < c.q then specQ else c.q, FB_MIN_QUALITY)
  {
  }

  // ---- feedback ----

  /** Congestion lowers the ceiling at once, to the first whole rate above 1.2 times what the
      viewer receives, kept between the floor and the maximum; the layer's rate follows. */
  lemma CongestionCapsRate(c: Ctl, was: Option<Fb>, skipped: int, queueMs: int, rate: real, windowMs: int, now: int)
    requires CtlOK(c) && (was.Some? ==> FbOK(was.value)) && Congested(skipped, queueMs) && rate >= 0.0
    ensures var f := Fed(c, was, skipped, queueMs, rate, windowMs, now);
            && FbOK(f)
            && (f.ceil as real > rate * 1.2 || f.ceil == c.maxFPS)
            && ((f.ceil - 1) as real <= rate * 1.2 || f.ceil == MinFPS(c))
            && LayerRate(c, Some(f), now) == Max(Min(c.fps, f.ceil), MinFPS(c))
  {
  }

  /** A clean report: no congestion, and its window fills the time a raise needs. */
  datatype Report = Report(queueMs: int, skipped: int, windowMs: int, rate: real, now: int)

  /** Clean reports, each while the previous one is fresh. */
  ghost predicate CleanRun(at: int, rs: seq<Report>)
    decreases |rs|
  {
    rs != [] ==>
      && !Congested(rs[0].skipped, rs[0].queueMs) && rs[0].windowMs >= FB_RAISE_MS
      && rs[0].now - at <= FB_TTL
      && CleanRun(rs[0].now, rs[1..])
  }

  function FedAll(c: Ctl, f: Fb, rs: seq<Report>): Fb
    decreases |rs|
  {
    if rs == [] then f
    else FedAll(c, Fed(c, Some(f), rs[0].skipped, rs[0].queueMs, rs[0].rate, rs[0].windowMs, rs[0].now), rs[1..])
  }

  /** Clean reports still needed: a ceiling rises by 2 a report and quality by 5. */
  function Debt(c: Ctl, f: Fb): int {
    Max(if f.ceil == 0 then 0 else Max((c.maxFPS - f.ceil + 1) / FB_RAISE_STEP, 1), (f.qDrop + FB_DROP_STEP - 1) / FB_DROP_STEP)
  }

  /** After that many clean reports no constraint is left, and none comes back. */
  lemma {:induction false} CleanReportsLiftConstraints(c: Ctl, f: Fb, rs: seq<Report>)
    requires CtlOK(c) && FbOK(f) && CleanRun(f.at, rs) && |rs| >= Debt(c, f)
    ensures FedAll(c, f, rs).ceil == 0 && FedAll(c, f, rs).qDrop == 0
    decreases |rs|
  {
    if rs != [] {
      var g := Fed(c, Some(f), rs[0].skipped, rs[0].queueMs, rs[0].rate, rs[0].windowMs, rs[0].now);
      assert Debt(c, g) <= Max(Debt(c, f) - 1, 0);
      CleanReportsLiftConstraints(c, g, rs[1..]);
    }
  }

  // ---- convergence ----

  /** The state after observing the write times in order. */
  function After(c: Ctl, writes: seq<int>): Ctl
    requires CtlOK(c)
    ensures CtlOK(After(c, writes)) && After(c, writes).maxQ == c.maxQ && After(c, writes).maxFPS == c.maxFPS
    decreases |writes|
  {
    if writes == [] then c else
    ObservedInRange(c, writes[0]);
    After(Observed(c, writes[0]), writes[1..])
  }

  /** A zero write time is comfortable exactly while a frame interval has 4 ns or more. */
  lemma ZeroIsComfortable(c: Ctl)
    requires CtlOK(c)
    ensures 0 < Interval(c) / 4 <==> c.fps <= SECOND / 4
  {
  }

  function Gap(c: Ctl): int {
    Max((c.maxQ - c.q + 4) / 5, (c.maxFPS - c.fps + 2) / RAISE_FPS)
  }

  /** Ceilings that zero-time writes reach from every state: comfort is never lost on the way
      up, or only in the very last step. */
  predicate Climbable(maxQ: int, maxFPS: int) {
    maxFPS <= SECOND / 4 || (maxFPS == SECOND / 4 + 1 && maxQ == 1)
  }

  /** From any state, 4 * max(ceil((maxQ-q)/5), ceil((maxFPS-fps)/3)) zero-time writes, less
      the comfortable ones already counted, reach the ceilings, and they stay there. */
  lemma {:induction false} ComfortReachesMax(c: Ctl, writes: seq<int>)
    requires CtlOK(c) && Climbable(c.maxQ, c.maxFPS) && forall k :: 0 <= k < |writes| ==> writes[k] == 0
    requires |writes| >= RAISE_AFTER * Gap(c) - c.good
    ensures After(c, writes).q == c.maxQ && After(c, writes).fps == c.maxFPS
    decreases |writes|
  {
    if writes != [] {
      ZeroIsComfortable(c);
      ObservedInRange(c, 0);
      var d := Observed(c, 0);
      if c.fps <= SECOND / 4 {
        assert Gap(d) <= Gap(c);
        assert d.good == c.good + 1 || (Gap(d) <= Max(Gap(c) - 1, 0) && d.good == 0);
      } else {
        assert Gap(d) == 0;
      }
      ComfortReachesMax(d, writes[1..]);
    }
  }

  /** Above a quarter of a gigahertz zero-time writes never raise anything. */
  lemma {:induction false} TooFastNeverRises(c: Ctl, writes: seq<int>)
    requires CtlOK(c) && c.fps > SECOND / 4 && forall k :: 0 <= k < |writes| ==> writes[k] == 0
    ensures After(c, writes).q == c.q && After(c, writes).fps == c.fps
    decreases |writes|
  {
    if writes != [] {
      ZeroIsComfortable(c);
      ObservedInRange(c, 0);
      TooFastNeverRises(Observed(c, 0), writes[1..]);
    }
  }

  /** After n zero-time writes. */
  function AfterZeros(c: Ctl, n: nat): Ctl
    requires CtlOK(c)
  {
    After(c, seq(n, _ => 0))
  }

  ghost predicate ReachesMax(c: Ctl)
    requires CtlOK(c)
  {
    exists n: nat :: AtMax(AfterZeros(c, n))
  }

  predicate AtMax(c: Ctl) {
    c.q == c.maxQ && c.fps == c.maxFPS
  }

  /** Zero-time writes reach the ceilings from every state if and only if the ceilings are
      climbable. */
  lemma EveryStateReachesMax(maxQ: int, maxFPS: int)
    requires 1 <= maxQ <= 100 && 1 <= maxFPS
    ensures (forall c :: CtlOK(c) && c.maxQ == maxQ && c.maxFPS == maxFPS ==> ReachesMax(c)) <==> Climbable(maxQ, maxFPS)
  {
    if Climbable(maxQ, maxFPS) {
      forall c | CtlOK(c) && c.maxQ == maxQ && c.maxFPS == maxFPS
        ensures ReachesMax(c)
      {
        var n := RAISE_AFTER * Max(Gap(c), 1);
        ComfortReachesMax(c, seq(n, _ => 0));
        assert AtMax(AfterZeros(c, n));
      }
    } else {
      var c := if maxQ > 1 then Ctl(maxQ, maxFPS, 1, maxFPS, 0, 0) else Ctl(1, maxFPS, 1, SECOND / 4 + 1, 0, 0);
      forall n: nat
        ensures !AtMax(AfterZeros(c, n))
      {
        TooFastNeverRises(c, seq(n, _ => 0));
      }
      assert !ReachesMax(c);
    }
  }

  const SCREEN_MAX_FPS: int := 30
  const DEFAULT_FPS: int := 15

  /** The rate ceiling a session starts with, and the one a later request sets. */
  function SessionFPS(asked: int): int {
    if asked <= 0 || asked > SCREEN_MAX_FPS then DEFAULT_FPS else asked
  }

  function ChangedFPS(was: int, asked: int): int {
    if asked > 0 then Min(asked, SCREEN_MAX_FPS) else was
  }

  /** The rate ceiling after a session's requests. */
  function RequestedFPS(first: int, later: seq<int>): int {
    if later == [] then SessionFPS(first) else ChangedFPS(RequestedFPS(first, later[..|later| - 1]), later[|later| - 1])
  }

  lemma {:induction false} RequestsAreClamped(first: int, later: seq<int>)
    ensures 1 <= RequestedFPS(first, later) <= SCREEN_MAX_FPS
  {
    if later != [] {
      RequestsAreClamped(first, later[..|later| - 1]);
    }
  }

  /** Whatever a session is asked for, comfortable writes reach its ceilings from every state. */
  lemma SessionsReachMax(first: int, later: seq<int>, c: Ctl)
    requires CtlOK(c) && c.maxFPS == RequestedFPS(first, later)
    ensures ReachesMax(c)
  {
    RequestsAreClamped(first, later);
    EveryStateReachesMax(c.maxQ, c.maxFPS);
  }

  /** Any quality and rate below the ceilings is reachable: raise the ceilings later. */
  method Reach(maxQ: int, maxFPS: int, q: int, fps: int) returns (a: AdaptCtl)
    requires 1 <= q <= maxQ <= 100 && 1 <= fps <= maxFPS
    ensures fresh(a) && a.Valid() && a.c == Ctl(maxQ, maxFPS, q, fps, 0, 0)
  {
    a := new AdaptCtl(q, fps);
    a.SetMax(maxQ, maxFPS);
  }

  /** Each write takes longer than three intervals of the rate it meets. */
  ghost predicate AllSevere(c: Ctl, writes: seq<int>)
    requires CtlOK(c)
    decreases |writes|
  {
    writes != [] ==>
      writes[0] > 3 * Interval(c) && (ObservedInRange(c, writes[0]); AllSevere(Observed(c, writes[0]), writes[1..]))
  }

  function Excess(c: Ctl): int {
    Max(Max((c.q - MinQ(c) + 9) / 10, c.fps - MinFPS(c)), if c.q < MinQ(c) || c.fps < MinFPS(c) then 1 else 0)
  }

  lemma LoweredStep(c: Ctl, write: int)
    requires CtlOK(c) && write > 3 * Interval(c)
    ensures Observed(c, write) == Lowered(c) && Excess(Lowered(c)) <= Max(Excess(c) - 1, 0)
  {
    QuarterIsLess(c);
  }

  /** From any reachable state, max(ceil((q-minQ)/10), fps-minFPS) severe writes reach the
      floors (one, if a raised ceiling left the state below them), and they stay there. */
  lemma {:induction false} CongestionReachesMin(c: Ctl, writes: seq<int>)
    requires CtlOK(c) && AllSevere(c, writes) && |writes| >= Excess(c)
    ensures After(c, writes).q == MinQ(c) && After(c, writes).fps == MinFPS(c)
    decreases |writes|
  {
    if writes != [] {
      LoweredStep(c, writes[0]);
      ObservedInRange(c, writes[0]);
      CongestionReachesMin(Observed(c, writes[0]), writes[1..]);
    }
  }
}
