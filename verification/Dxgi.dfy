/** The desktop-duplication capturer: dirty-rectangle lists and the fallback state machine. */
module Dxgi {
  import opened Geometry
  import opened Raster
  import opened Hint

  // ---- dirty rectangles ----

  const MAX_RECTS: int := 32

  /** Overlapping or edge to edge. */
  predicate Touch(a: Rect, b: Rect) {
    a.x0 <= b.x1 && b.x0 <= a.x1 && a.y0 <= b.y1 && b.y0 <= a.y1
  }

  ghost predicate Apart(rs: seq<Rect>) {
    forall k, l :: 0 <= k < l < |rs| ==> !Touch(rs[k], rs[l])
  }

  ghost predicate Covers(out: seq<Rect>, rs: seq<Rect>) {
    forall x, y :: InSome(rs, x, y) ==> InSome(out, x, y)
  }

  ghost predicate Contains(h: Rect, rs: seq<Rect>) {
    forall k :: 0 <= k < |rs| ==> h.x0 <= rs[k].x0 && h.y0 <= rs[k].y0 && rs[k].x1 <= h.x1 && rs[k].y1 <= h.y1
  }

  ghost predicate Attained(h: Rect, rs: seq<Rect>) {
    && (exists k :: 0 <= k < |rs| && rs[k].x0 == h.x0) && (exists k :: 0 <= k < |rs| && rs[k].y0 == h.y0)
    && (exists k :: 0 <= k < |rs| && rs[k].x1 == h.x1) && (exists k :: 0 <= k < |rs| && rs[k].y1 == h.y1)
  }

  /** h is the smallest rectangle around the list: it contains every member and every side
      is attained. */
  ghost predicate IsHull(h: Rect, rs: seq<Rect>) {
    Contains(h, rs) && Attained(h, rs)
  }

  function MergePair(rs: seq<Rect>, i: nat, j: nat): seq<Rect>
    requires i < j < |rs|
  {
    var m := rs[i := rs[i].Union(rs[j])];
    m[..j] + m[j + 1..]
  }

  /** Where a member of the list went. */
  function Moved(i: nat, j: nat, k: nat): nat
    requires i < j
  {
    if k < j then k else if k == j then i else k - 1
  }

  lemma MergeContains(rs: seq<Rect>, i: nat, j: nat, k: nat)
    requires i < j < |rs| && k < |rs| && NoneEmpty(rs)
    ensures Moved(i, j, k) < |MergePair(rs, i, j)|
    ensures var m := MergePair(rs, i, j)[Moved(i, j, k)];
            m.x0 <= rs[k].x0 && m.y0 <= rs[k].y0 && rs[k].x1 <= m.x1 && rs[k].y1 <= m.y1
  {
  }

  lemma MergeKeeps(rs: seq<Rect>, i: nat, j: nat)
    requires i < j < |rs| && NoneEmpty(rs)
    ensures NoneEmpty(MergePair(rs, i, j)) && Covers(MergePair(rs, i, j), rs) && |MergePair(rs, i, j)| == |rs| - 1
  {
    var m := MergePair(rs, i, j);
    forall x, y | InSome(rs, x, y)
      ensures InSome(m, x, y)
    {
      var k :| 0 <= k < |rs| && rs[k].Has(x, y);
      MergeContains(rs, i, j, k);
      assert m[Moved(i, j, k)].Has(x, y);
    }
  }

  lemma MergeIsContained(h: Rect, rs: seq<Rect>, i: nat, j: nat)
    requires i < j < |rs| && NoneEmpty(rs) && Contains(h, rs)
    ensures Contains(h, MergePair(rs, i, j))
  {
  }

  lemma MergeKeepsHull(h: Rect, rs: seq<Rect>, i: nat, j: nat)
    requires i < j < |rs| && NoneEmpty(rs) && IsHull(h, rs)
    ensures IsHull(h, MergePair(rs, i, j))
  {
    MergeIsContained(h, rs, i, j);
    var a :| 0 <= a < |rs| && rs[a].x0 == h.x0;
    var b :| 0 <= b < |rs| && rs[b].y0 == h.y0;
    var c :| 0 <= c < |rs| && rs[c].x1 == h.x1;
    var d :| 0 <= d < |rs| && rs[d].y1 == h.y1;
    MergeContains(rs, i, j, a);
    MergeContains(rs, i, j, b);
    MergeContains(rs, i, j, c);
    MergeContains(rs, i, j, d);
    hide MergePair, Moved;
    var m := MergePair(rs, i, j);
    assert m[Moved(i, j, a)].x0 == h.x0 && m[Moved(i, j, b)].y0 == h.y0 && m[Moved(i, j, c)].x1 == h.x1 && m[Moved(i, j, d)].y1 == h.y1;
  }

  /** First touching pair in scan order. */
  method FindTouching(rs: seq<Rect>) returns (i: nat, j: nat, found: bool)
    ensures found ==> i < j < |rs| && Touch(rs[i], rs[j])
    ensures !found ==> Apart(rs)
  {
    i, j, found := 0, 0, false;
    while i < |rs|
      invariant 0 <= i <= |rs| && !found
      invariant forall k, l :: 0 <= k < i && k < l < |rs| ==> !Touch(rs[k], rs[l])
    {
      j := i + 1;
      while j < |rs|
        invariant i < j <= |rs|
        invariant forall l :: i < l < j ==> !Touch(rs[i], rs[l])
      {
        if Touch(rs[i], rs[j]) {
          return i, j, true;
        }
        j := j + 1;
      }
      i := i + 1;
    }
  }

  /** Merging never loses a point; it ends with rectangles that are apart and at most maxN,
      or with the one hull of them all. */
  method CoalesceRects(rs: seq<Rect>, maxN: int) returns (out: seq<Rect>)
    requires NoneEmpty(rs)
    ensures NoneEmpty(out) && Covers(out, rs)
    ensures |rs| <= 1 ==> out == rs
    ensures (Apart(out) && (|rs| <= 1 || |out| <= maxN)) || (|out| == 1 && IsHull(out[0], rs))
    ensures forall h :: rs != [] && IsHull(h, rs) ==> IsHull(h, out)
  {
    if |rs| <= 1 {
      return rs;
    }
    out := rs;
    var merged := true;
    while merged && |out| > 1
      invariant |out| >= 1 && NoneEmpty(out) && Covers(out, rs)
      invariant !merged ==> Apart(out)
      invariant forall h :: IsHull(h, rs) ==> IsHull(h, out)
      decreases |out|, merged
    {
      var i, j, found := FindTouching(out);
      merged := found;
      if found {
        MergeKeeps(out, i, j);
        forall h | IsHull(h, out)
          ensures IsHull(h, MergePair(out, i, j))
        {
          MergeKeepsHull(h, out, i, j);
        }
        var u := out[i := out[i].Union(out[j])];
        out := u[..j] + u[j + 1..];
      }
    }
    if |out| > maxN {
      var bb := HullOf(out);
      HullExists(rs);
      HullUnique(bb, rs, out);
      return [bb];
    }
  }

  method HullOf(out: seq<Rect>) returns (bb: Rect)
    requires |out| > 0 && NoneEmpty(out)
    ensures IsHull(bb, out) && !bb.Empty() && Covers([bb], out)
  {
    bb := out[0];
    var k := 1;
    assert IsHull(bb, out[..1]);
    while k < |out|
      invariant 1 <= k <= |out| && !bb.Empty() && IsHull(bb, out[..k])
    {
      var before := bb;
      bb := bb.Union(out[k]);
      HullStep(before, out[..k], out[k]);
      assert out[..k + 1] == out[..k] + [out[k]];
      k := k + 1;
    }
    assert out[..k] == out;
    forall x, y | InSome(out, x, y)
      ensures InSome([bb], x, y)
    {
      assert [bb][0].Has(x, y);
    }
  }

  lemma HullStep(h: Rect, rs: seq<Rect>, r: Rect)
    requires IsHull(h, rs) && !h.Empty() && !r.Empty()
    ensures IsHull(h.Union(r), rs + [r])
  {
    var u, l := h.Union(r), rs + [r];
    assert l[|rs|] == r;
    var a :| 0 <= a < |rs| && rs[a].x0 == h.x0;
    var b :| 0 <= b < |rs| && rs[b].y0 == h.y0;
    var c :| 0 <= c < |rs| && rs[c].x1 == h.x1;
    var d :| 0 <= d < |rs| && rs[d].y1 == h.y1;
    assert l[a].x0 == h.x0 && l[b].y0 == h.y0 && l[c].x1 == h.x1 && l[d].y1 == h.y1;
  }

  lemma {:induction false} HullExists(rs: seq<Rect>)
    requires |rs| > 0 && NoneEmpty(rs)
    ensures exists h :: IsHull(h, rs) && !h.Empty()
  {
    if |rs| == 1 {
      assert IsHull(rs[0], rs);
    } else {
      var n := |rs| - 1;
      HullExists(rs[..n]);
      var h :| IsHull(h, rs[..n]) && !h.Empty();
      HullStep(h, rs[..n], rs[n]);
      assert rs[..n] + [rs[n]] == rs;
    }
  }

  lemma HullUnique(bb: Rect, rs: seq<Rect>, out: seq<Rect>)
    requires IsHull(bb, out) && (exists h :: IsHull(h, rs) && !h.Empty())
    requires forall h :: IsHull(h, rs) ==> IsHull(h, out)
    ensures IsHull(bb, rs)
    ensures forall h :: IsHull(h, rs) ==> h == bb && IsHull(h, [bb])
  {
    forall h | IsHull(h, rs)
      ensures h == bb && IsHull(h, [bb])
    {
      assert IsHull(h, out);
      assert [bb][0] == bb;
    }
  }

  /** A move: the block now at dst was copied from elsewhere. */
  datatype Move = Move(srcX: int, srcY: int, dst: Rect)

  /** Every clipped pixel of a dirty rectangle or a move's destination is covered. */
  method DirtyUnion(dirty: seq<Rect>, moves: seq<Move>, w: nat, h: nat) returns (out: seq<Rect>)
    ensures NoneEmpty(out)
    ensures forall k, x, y :: 0 <= k < |dirty| && dirty[k].Canon().Has(x, y) && Rect(0, 0, w, h).Has(x, y) ==> InSome(out, x, y)
    ensures forall k, x, y :: 0 <= k < |moves| && moves[k].dst.Canon().Has(x, y) && Rect(0, 0, w, h).Has(x, y) ==> InSome(out, x, y)
    ensures |out| <= MAX_RECTS && (Apart(out) || |out| == 1)
  {
    var bounds := Corners(0, 0, w, h);
    var rs: seq<Rect> := [];
    var i := 0;
    while i < |dirty|
      invariant 0 <= i <= |dirty| && NoneEmpty(rs)
      invariant forall k, x, y :: 0 <= k < i && dirty[k].Canon().Has(x, y) && bounds.Has(x, y) ==> InSome(rs, x, y)
    {
      var r := dirty[i].Canon().Intersect(bounds);
      Grown(rs, r);
      if !r.Empty() {
        rs := rs + [r];
      }
      i := i + 1;
    }
    i := 0;
    while i < |moves|
      invariant 0 <= i <= |moves| && NoneEmpty(rs)
      invariant forall k, x, y :: 0 <= k < |dirty| && dirty[k].Canon().Has(x, y) && bounds.Has(x, y) ==> InSome(rs, x, y)
      invariant forall k, x, y :: 0 <= k < i && moves[k].dst.Canon().Has(x, y) && bounds.Has(x, y) ==> InSome(rs, x, y)
    {
      var r := moves[i].dst.Canon().Intersect(bounds);
      Grown(rs, r);
      if !r.Empty() {
        rs := rs + [r];
      }
      i := i + 1;
    }
    out := CoalesceRects(rs, MAX_RECTS);
  }

  lemma Grown(rs: seq<Rect>, r: Rect)
    ensures forall x, y :: InSome(rs, x, y) ==> InSome(rs + [r], x, y)
    ensures forall x, y :: r.Has(x, y) ==> InSome(rs + [r], x, y)
  {
    forall x, y
      ensures InSome(rs, x, y) ==> InSome(rs + [r], x, y)
      ensures r.Has(x, y) ==> InSome(rs + [r], x, y)
    {
      assert (rs + [r])[|rs|] == r;
      if InSome(rs, x, y) {
        var k :| 0 <= k < |rs| && rs[k].Has(x, y);
        assert (rs + [r])[k].Has(x, y);
      }
    }
  }

  // ---- the fallback machine ----

  const FAIL_LIMIT: int := 3
  const RETRY_BASE: int := 30000 // milliseconds
  const RETRY_MAX: int := 240000

  datatype Next = NextError(unsupported: bool) | Still | Changed(img: Option<Img>, dirty: seq<Rect>)

  /** One call's environment: two clock readings, the outcome of Open (None: success,
      Some(unsupported): failure), of Next, and the fallback's picture. */
  datatype Env = Env(now: int, later: int, open: Option<bool>, next: Next, fallback: Option<Img>)

  /** A rectangle list that covers the whole image covers any change. */
  lemma AllDirtyCovers(last: Option<Img>, img: Img, dirty: seq<Rect>)
    requires img.Valid() && (last.Some? ==> last.value.Valid()) && AllDirty(img, dirty)
    ensures HintCovers(last, img, SrcHint(true, dirty))
  {
  }

  ghost predicate AllDirty(img: Img, dirty: seq<Rect>) {
    forall x, y :: 0 <= x < img.w && 0 <= y < img.h ==> InSome(dirty, x, y)
  }

  ghost function Pow2(n: nat): int {
    if n == 0 then 1 else 2 * Pow2(n - 1)
  }

  lemma FirstWindow()
    ensures Min(RETRY_BASE * Pow2(0), RETRY_MAX) == RETRY_BASE
  {
  }

  class DxgiCapturer {
    var isOpen: bool
    var display: int
    var primed: bool
    var fails: int
    var fbUntil: int
    var delay: int
    var usedFB: bool
    ghost var clock: int          // latest time seen
    ghost var falls: nat          // fallbacks since the last success
    ghost var source: Option<Img> // what the open source last reported as changed
    ghost var last: Option<Img>   // last image returned

    ghost predicate Valid()
      reads this
    {
      && 0 <= fails < FAIL_LIMIT
      && RETRY_BASE <= delay <= RETRY_MAX && delay == Min(RETRY_BASE * Pow2(falls), RETRY_MAX)
      && (isOpen ==> fbUntil <= clock)
      && (last.Some? ==> last.value.Valid())
      && (primed ==> isOpen && source.Some? && last == source)
      && (!primed ==> source == None)
    }

    /** The source's contract: the first changed result after Open is dirty everywhere,
        later ones cover the change since the previous one. */
    ghost predicate SourceOK(next: Next, seen: Option<Img>) {
      next.Changed? && next.img.Some? ==>
        next.img.value.Valid() && if seen.None? then AllDirty(next.img.value, next.dirty) else HintCovers(seen, next.img.value, SrcHint(true, next.dirty))
    }

    constructor ()
      ensures Valid() && last == None && !isOpen && delay == RETRY_BASE
    {
      isOpen, display, primed, fails, fbUntil, delay, usedFB := false, 0, false, 0, 0, RETRY_BASE, false;
      clock, falls, source, last := 0, 0, None, None;
    }

    method CloseSource()
      modifies this`isOpen, this`primed, this`source
      ensures !isOpen && !primed && source == None
    {
      isOpen, primed, source := false, false, None;
    }

    /** Counts a failure; the third in a row, or an unsupported source, starts a fallback
        window, and the next one will be twice as long (at most RETRY_MAX). */
    method NoteFail(now: int, unsupported: bool)
      requires 0 <= fails < FAIL_LIMIT && RETRY_BASE <= delay <= RETRY_MAX && delay == Min(RETRY_BASE * Pow2(falls), RETRY_MAX)
      modifies this`fails, this`fbUntil, this`delay, this`falls
      ensures 0 <= fails < FAIL_LIMIT && RETRY_BASE <= delay <= RETRY_MAX && delay == Min(RETRY_BASE * Pow2(falls), RETRY_MAX)
      ensures if unsupported || old(fails) + 1 >= FAIL_LIMIT
              then fails == 0 && fbUntil == now + old(delay) && falls == old(falls) + 1
              else fails == old(fails) + 1 && fbUntil == old(fbUntil) && falls == old(falls)
    {
      fails := fails + 1;
      if fails >= FAIL_LIMIT || unsupported {
        fails := 0;
        fbUntil := now + delay;
        delay := Min(delay * 2, RETRY_MAX);
        falls := falls + 1;
      }
    }

    method ViaFallback(img: Option<Img>) returns (r: Option<Img>, hint: seq<Rect>, hinted: bool, err: bool)
      requires Valid() && !primed && (img.Some? ==> img.value.Valid())
      modifies this`usedFB, this`last
      ensures Valid()
      ensures r == img && !hinted && hint == [] && err == img.None? && usedFB
      ensures last == if img.Some? then img else old(last)
    {
      usedFB := true;
      last := if img.Some? then img else last;
      return img, [], false, img.None?;
    }

    /** Hints are sound in every run: a hinted image differs from the last image returned
        only inside its rectangles, and "no change" means the screen still is that image. */
    method CaptureHinted(d: int, e: Env) returns (img: Option<Img>, hint: seq<Rect>, hinted: bool, err: bool)
      requires Valid() && clock <= e.now <= e.later
      requires SourceOK(e.next, if isOpen && display == d then source else None)
      requires e.fallback.Some? ==> e.fallback.value.Valid()
      modifies this
      ensures Valid() && clock == e.later
      ensures isOpen ==> display == d
      ensures hinted && img.Some? ==> HintCovers(old(last), img.value, SrcHint(true, hint)) && hint != []
      ensures hinted && img.None? ==> source.Some? && source == old(last) && hint == [] && !err
      ensures last == if img.Some? then img else old(last)
      ensures !hinted ==> img == e.fallback && usedFB
      ensures old(fbUntil) > e.now ==> !hinted && fbUntil == old(fbUntil)
      ensures hinted && img.Some? ==> fails == 0 && delay == RETRY_BASE
    {
      hide HintCovers, AllDirty, Pow2, Img.Valid, Valid;
      if e.now < fbUntil {
        WindowMeansClosed(e.now);
        Tick(e.later);
        img, hint, hinted, err := ViaFallback(e.fallback);
        return;
      }
      var ok := OpenSource(d, e);
      if !ok {
        img, hint, hinted, err := ViaFallback(e.fallback);
        return;
      }
      img, hint, hinted, err := Poll(e);
    }

    /** During a fallback window the source is closed. */
    lemma WindowMeansClosed(now: int)
      requires Valid() && clock <= now < fbUntil
      ensures !isOpen && !primed
    {
    }

    method Tick(t: int)
      requires Valid() && clock <= t
      modifies this`clock
      ensures Valid() && clock == t
    {
      clock := t;
    }

    /** Makes sure the source is open for this display. */
    method OpenSource(d: int, e: Env) returns (ok: bool)
      requires Valid() && clock <= e.now <= e.later && fbUntil <= e.now
      modifies this
      ensures Valid() && clock == e.later && last == old(last) && usedFB == old(usedFB) && ok == isOpen && (!ok ==> !primed)
      ensures ok ==> display == d && source == if old(isOpen) && old(display) == d then old(source) else None
    {
      hide HintCovers, Pow2, Img.Valid;
      clock := e.later;
      if isOpen && display != d {
        CloseSource();
      }
      if !isOpen {
        if e.open.Some? {
          NoteFail(e.later, e.open.value);
          return false;
        }
        isOpen, display, primed := true, d, false;
      }
      return true;
    }

    /** One result from the open source. */
    method Poll(e: Env) returns (img: Option<Img>, hint: seq<Rect>, hinted: bool, err: bool)
      requires Valid() && isOpen && clock == e.later && SourceOK(e.next, source) && (e.fallback.Some? ==> e.fallback.value.Valid())
      modifies this
      ensures Valid() && clock == old(clock) && display == old(display)
      ensures hinted && img.Some? ==> HintCovers(old(last), img.value, SrcHint(true, hint)) && hint != []
      ensures hinted && img.None? ==> source.Some? && source == old(last) && hint == [] && !err
      ensures last == if img.Some? then img else old(last)
      ensures !hinted ==> img == e.fallback && usedFB
      ensures hinted && img.Some? ==> fails == 0 && delay == RETRY_BASE
    {
      hide HintCovers, AllDirty, Pow2, Img.Valid;
      FirstWindow();
      if e.next.NextError? {
        CloseSource();
        NoteFail(e.later, e.next.unsupported);
        img, hint, hinted, err := ViaFallback(e.fallback);
        return;
      }
      if e.next.Still? {
        if !primed {
          img, hint, hinted, err := ViaFallback(e.fallback);
          return;
        }
        usedFB := false;
        return None, [], true, false;
      }
      if e.next.img.None? || |e.next.dirty| == 0 {
        CloseSource();
        NoteFail(e.later, false);
        img, hint, hinted, err := ViaFallback(e.fallback);
        return;
      }
      if source.None? {
        AllDirtyCovers(last, e.next.img.value, e.next.dirty);
      }
      fails, delay, primed, usedFB := 0, RETRY_BASE, true, false;
      falls, source, last := 0, e.next.img, e.next.img;
      return e.next.img, e.next.dirty, true, false;
    }
  }
}
