/** Automatic switching between tiles and video: hysteresis over whole runs. Times are in
    milliseconds and positive; 0 stands for the zero time. */
module VideoSwitch {

  const ENTER_RATIO: real := 0.30
  const EXIT_RATIO: real := 0.10
  const ENTER_AFTER: int := 500
  const EXIT_AFTER: int := 2000
  const MIN_DWELL: int := 1500

  datatype Pref = Auto | Tiles | On

  datatype Switch = Switch(video: bool, since: int, moving: int, calm: int)

  function Dwells(s: Switch, now: int): bool {
    s.since != 0 && now - s.since < MIN_DWELL
  }

  /** stepAuto: streak starts and, if the streak is long enough, the mode. */
  function AutoMode(s: Switch, now: int, ratio: real): Switch {
    if !s.video then
      if ratio < ENTER_RATIO then s.(moving := 0)
      else
        var t := s.(moving := if s.moving == 0 then now else s.moving);
        if now - t.moving >= ENTER_AFTER && !Dwells(s, now) then t.(video := true) else t
    else
      if ratio >= EXIT_RATIO then s.(calm := 0)
      else
        var t := s.(calm := if s.calm == 0 then now else s.calm);
        if now - t.calm >= EXIT_AFTER && !Dwells(s, now) then t.(video := false) else t
  }

  function Next(s: Switch, now: int, ratio: real, pref: Pref): Switch {
    var t := match pref
             case On => s.(video := true)
             case Tiles => s.(video := false)
             case Auto => AutoMode(s, now, ratio);
    if t.video != s.video then Switch(t.video, now, 0, 0) else t
  }

  class VideoSwitcher {
    var video: bool
    var since: int
    var movingFor: int
    var calmFrom: int

    ghost function State(): Switch
      reads this
    {
      Switch(video, since, movingFor, calmFrom)
    }

    constructor ()
      ensures State() == Switch(false, 0, 0, 0)
    {
      video, since, movingFor, calmFrom := false, 0, 0, 0;
    }

    method StepAuto(now: int, ratio: real)
      modifies this
      ensures State() == AutoMode(old(State()), now, ratio)
    {
      var dwell := since != 0 && now - since < MIN_DWELL;
      if !video {
        if ratio < ENTER_RATIO {
          movingFor := 0;
          return;
        }
        if movingFor == 0 {
          movingFor := now;
        }
        if now - movingFor >= ENTER_AFTER && !dwell {
          video := true;
        }
        return;
      }
      if ratio >= EXIT_RATIO {
        calmFrom := 0;
        return;
      }
      if calmFrom == 0 {
        calmFrom := now;
      }
      if now - calmFrom >= EXIT_AFTER && !dwell {
        video := false;
      }
    }

    method Step(now: int, ratio: real, pref: Pref) returns (isVideo: bool, changed: bool)
      modifies this
      ensures State() == Next(old(State()), now, ratio, pref)
      ensures isVideo == video && changed == (video != old(video))
    {
      var was := video;
      match pref {
        case On => video := true;
        case Tiles => video := false;
        case Auto => StepAuto(now, ratio);
      }
      if video != was {
        since := now;
        movingFor, calmFrom := 0, 0;
      }
      return video, video != was;
    }
  }

  // ---- runs with automatic choice ----

  datatype Turn = Turn(now: int, ratio: real)

  ghost predicate Clocked(h: seq<Turn>) {
    (forall k :: 0 <= k < |h| ==> h[k].now > 0) && forall i, j :: 0 <= i <= j < |h| ==> h[i].now <= h[j].now
  }

  ghost function StateAt(h: seq<Turn>, n: nat): Switch
    requires n <= |h|
  {
    if n == 0 then Switch(false, 0, 0, 0) else Next(StateAt(h, n - 1), h[n - 1].now, h[n - 1].ratio, Auto)
  }

  /** The turn happened in this mode and speaks for leaving it. */
  ghost predicate Pulls(h: seq<Turn>, m: nat, video: bool)
    requires m < |h|
  {
    StateAt(h, m).video == video && if video then h[m].ratio < EXIT_RATIO else h[m].ratio >= ENTER_RATIO
  }

  /** Turns i .. n-1 form an unbroken stretch. */
  ghost predicate Stretch(h: seq<Turn>, i: int, n: nat, video: bool)
    requires n <= |h|
  {
    0 <= i < n && forall m :: i <= m < n ==> Pulls(h, m, video)
  }

  function Since(s: Switch): int {
    if s.video then s.calm else s.moving
  }

  /** The streak field is the time of the first turn of the longest stretch that reaches up
      to now, or zero if there is none; the other field is zero. */
  ghost predicate StreakOK(h: seq<Turn>, n: nat)
    requires n <= |h|
  {
    var s := StateAt(h, n);
    && (if s.video then s.moving == 0 else s.calm == 0)
    && (Since(s) == 0 ==> forall i :: !Stretch(h, i, n, s.video))
    && (Since(s) != 0 ==> (exists i :: Stretch(h, i, n, s.video) && h[i].now == Since(s))
                          && forall i :: Stretch(h, i, n, s.video) ==> Since(s) <= h[i].now)
  }

  lemma StretchGrows(h: seq<Turn>, i: int, n: nat, video: bool)
    requires n < |h|
    ensures Stretch(h, i, n + 1, video) <==> Pulls(h, n, video) && (i == n || Stretch(h, i, n, video))
  {
  }

  lemma {:induction false} StreakInvariant(h: seq<Turn>, n: nat)
    requires Clocked(h) && n <= |h|
    ensures StreakOK(h, n)
    ensures 0 <= Since(StateAt(h, n)) && (n > 0 ==> Since(StateAt(h, n)) <= h[n - 1].now)
  {
    if n > 0 {
      StreakInvariant(h, n - 1);
      var s, t, v := StateAt(h, n - 1), StateAt(h, n), h[n - 1];
      forall i
        ensures Stretch(h, i, n, t.video) <==> Pulls(h, n - 1, t.video) && (i == n - 1 || Stretch(h, i, n - 1, t.video))
      {
        StretchGrows(h, i, n - 1, t.video);
      }
      if t.video == s.video && Pulls(h, n - 1, s.video) {
        if Since(s) == 0 {
          assert Stretch(h, n - 1, n, t.video);
        } else {
          var i :| Stretch(h, i, n - 1, s.video) && h[i].now == Since(s);
          assert Stretch(h, i, n, t.video);
        }
      }
    }
  }

  /** What makes a state oppose its mode: the wait and the streak start a turn now leads to. */
  function Limit(video: bool): int {
    if video then EXIT_AFTER else ENTER_AFTER
  }

  function StreakStart(s: Switch, now: int): int {
    if Since(s) == 0 then now else Since(s)
  }

  lemma FlipRule(h: seq<Turn>, n: nat)
    requires n < |h|
    ensures var s, now := StateAt(h, n), h[n].now;
            StateAt(h, n + 1).video != s.video <==>
            Pulls(h, n, s.video) && !Dwells(s, now) && now - StreakStart(s, now) >= Limit(s.video)
  {
  }

  ghost predicate LongPull(h: seq<Turn>, i: int, n: nat, video: bool)
    requires n < |h|
  {
    Stretch(h, i, n + 1, video) && h[n].now - h[i].now >= Limit(video)
  }

  /** The streak field decides whether some stretch up to this turn is long enough. */
  lemma LongPullExists(h: seq<Turn>, n: nat)
    requires Clocked(h) && n < |h|
    ensures var s, now := StateAt(h, n), h[n].now;
            Pulls(h, n, s.video) && now - StreakStart(s, now) >= Limit(s.video) <==> exists i :: LongPull(h, i, n, s.video)
  {
    StreakInvariant(h, n);
    hide StateAt, Pulls, Stretch;
    var s, now := StateAt(h, n), h[n].now;
    if i :| LongPull(h, i, n, s.video) {
      StretchGrows(h, i, n, s.video);
    }
    if Pulls(h, n, s.video) && now - StreakStart(s, now) >= Limit(s.video) {
      var i :| Stretch(h, i, n, s.video) && h[i].now == Since(s);
      StretchGrows(h, i, n, s.video);
      assert LongPull(h, i, n, s.video);
    }
  }

  /** Exactly when a turn changes the mode: the minimum dwell is over and an unbroken
      stretch of turns up to this one pulls out of the mode for long enough. */
  lemma ChangesExactlyWhen(h: seq<Turn>, n: nat)
    requires Clocked(h) && n < |h|
    ensures var s := StateAt(h, n);
            StateAt(h, n + 1).video != s.video <==> !Dwells(s, h[n].now) && exists i :: LongPull(h, i, n, s.video)
  {
    FlipRule(h, n);
    LongPullExists(h, n);
  }

  ghost predicate Changed(h: seq<Turn>, n: nat)
    requires n < |h|
  {
    StateAt(h, n + 1).video != StateAt(h, n).video
  }

  lemma {:induction false} SinceIsLastChange(h: seq<Turn>, i: nat, n: nat)
    requires Clocked(h) && i < n <= |h| && Changed(h, i)
    ensures StateAt(h, n).since >= h[i].now
  {
    if i + 1 < n {
      SinceIsLastChange(h, i, n - 1);
    }
  }

  /** Any two mode changes are at least the minimum dwell apart. */
  lemma ChangesAreApart(h: seq<Turn>, i: nat, j: nat)
    requires Clocked(h) && i < j < |h| && Changed(h, i) && Changed(h, j)
    ensures h[j].now - h[i].now >= MIN_DWELL
  {
    SinceIsLastChange(h, i, j);
    ChangesExactlyWhen(h, j);
  }

  /** Entering video: a stretch of at least 500 ms, every turn in tile mode at 0.30 or more. */
  lemma EnteringNeedsMotion(h: seq<Turn>, n: nat)
    requires Clocked(h) && n < |h| && !StateAt(h, n).video && StateAt(h, n + 1).video
    ensures exists i: nat :: i <= n && h[n].now - h[i].now >= ENTER_AFTER
                        && forall m :: i <= m <= n ==> !StateAt(h, m).video && h[m].ratio >= ENTER_RATIO
  {
    ChangesExactlyWhen(h, n);
    hide StateAt;
    var i :| LongPull(h, i, n, false);
    forall m | i <= m <= n
      ensures !StateAt(h, m).video && h[m].ratio >= ENTER_RATIO
    {
      assert Pulls(h, m, false);
    }
  }

  /** Leaving video: a stretch of at least 2 s, every turn in video mode below 0.10. */
  lemma LeavingNeedsCalm(h: seq<Turn>, n: nat)
    requires Clocked(h) && n < |h| && StateAt(h, n).video && !StateAt(h, n + 1).video
    ensures exists i: nat :: i <= n && h[n].now - h[i].now >= EXIT_AFTER
                        && forall m :: i <= m <= n ==> StateAt(h, m).video && h[m].ratio < EXIT_RATIO
  {
    ChangesExactlyWhen(h, n);
    hide StateAt;
    var i :| LongPull(h, i, n, true);
    forall m | i <= m <= n
      ensures StateAt(h, m).video && h[m].ratio < EXIT_RATIO
    {
      assert Pulls(h, m, true);
    }
  }
}
