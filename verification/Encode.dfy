/** Tile encoding: oversized payloads halve their rectangle, and a pool of workers that
    share one index produces the same list as the sequential loop. */
module Encode {
  import opened Geometry
  import opened Raster
  import Tiles

  const MAX_PAYLOAD: nat := 204800
  const U16: int := 0x1_0000

  /** Answer of the tile encoder for one rectangle of the frame being sent. */
  datatype Coded = Coded(tag: byte, payload: seq<byte>) | Failed(error: string)

  /** A wire rectangle; its four fields are 16 bits wide. */
  datatype Wire = Wire(x: int, y: int, w: int, h: int, tag: byte, payload: seq<byte>) {
    function Area(): Rect {
      Rect(x, y, x + w, y + h)
    }
  }

  datatype Outcome = Sent(wire: seq<Wire>) | Error(error: string)

  function ToWire(r: Rect, c: Coded): Wire
    requires c.Coded?
  {
    Wire(r.x0 % U16, r.y0 % U16, r.Dx() % U16, r.Dy() % U16, c.tag, c.payload)
  }

  predicate MustSplit(c: Coded, r: Rect) {
    c.Coded? && |c.payload| > MAX_PAYLOAD && (r.Dx() > Tiles.TILE || r.Dy() > Tiles.TILE)
  }

  /** The two halves of the longer side. */
  function Halves(r: Rect): (Rect, Rect) {
    if r.Dx() >= r.Dy() then
      var m := r.x0 + r.Dx() / 2; (r.(x1 := m), r.(x0 := m))
    else
      var m := r.y0 + r.Dy() / 2; (r.(y1 := m), r.(y0 := m))
  }

  /** What one rectangle contributes. */
  function One(enc: Rect -> Coded, r: Rect): Outcome
    requires !r.Empty()
    decreases r.Dx() + r.Dy()
  {
    var c := enc(r);
    if c.Failed? then Error(c.error)
    else if MustSplit(c, r) then
      var a := One(enc, Halves(r).0);
      if a.Error? then a else
      var b := One(enc, Halves(r).1);
      if b.Error? then b else Sent(a.wire + b.wire)
    else Sent([ToWire(r, c)])
  }

  /** The sequential loop, for the first n rectangles. */
  ghost function Sequential(enc: Rect -> Coded, rs: seq<Rect>, n: nat): Outcome
    requires n <= |rs| && NoneEmpty(rs)
  {
    if n == 0 then Sent([]) else
    var before := Sequential(enc, rs, n - 1);
    if before.Error? then before else
    var o := One(enc, rs[n - 1]);
    if o.Error? then o else Sent(before.wire + o.wire)
  }

  function Areas(ws: seq<Wire>): seq<Rect> {
    seq(|ws|, k requires 0 <= k < |ws| => ws[k].Area())
  }

  lemma AreasConcat(a: seq<Wire>, b: seq<Wire>)
    ensures Areas(a + b) == Areas(a) + Areas(b)
  {
  }

  lemma HalvesPartition(r: Rect)
    requires !r.Empty() && (r.Dx() > Tiles.TILE || r.Dy() > Tiles.TILE)
    ensures !Halves(r).0.Empty() && !Halves(r).1.Empty()
    ensures forall x, y :: Bit(r.Has(x, y)) == Bit(Halves(r).0.Has(x, y)) + Bit(Halves(r).1.Has(x, y))
  {
  }

  /** The pieces of one rectangle partition it, and each carries the encoder's answer
      for exactly its own area, within the payload limit unless it is tile sized. */
  lemma {:induction false} OnePartitions(enc: Rect -> Coded, r: Rect)
    requires !r.Empty() && r.Within(U16 - 1, U16 - 1) && One(enc, r).Sent?
    ensures forall x, y :: Count(Areas(One(enc, r).wire), x, y) == Bit(r.Has(x, y))
    ensures forall k :: 0 <= k < |One(enc, r).wire| ==>
                          var p := One(enc, r).wire[k];
                          enc(p.Area()) == Coded(p.tag, p.payload) && !MustSplit(enc(p.Area()), p.Area())
    decreases r.Dx() + r.Dy()
  {
    var c := enc(r);
    if MustSplit(c, r) {
      HalvesPartition(r);
      var (a, b) := Halves(r);
      OnePartitions(enc, a);
      OnePartitions(enc, b);
      AreasConcat(One(enc, a).wire, One(enc, b).wire);
      CountConcat(Areas(One(enc, a).wire), Areas(One(enc, b).wire));
    } else {
      assert Areas([ToWire(r, c)]) == [] + [r];
      CountAppend([], r);
    }
  }

  /** A frame's wire rectangles cover exactly what the requested rectangles cover. */
  lemma {:induction false} SequentialCovers(enc: Rect -> Coded, rs: seq<Rect>, n: nat)
    requires n <= |rs| && NoneEmpty(rs) && Sequential(enc, rs, n).Sent?
    requires forall k :: 0 <= k < |rs| ==> rs[k].Within(U16 - 1, U16 - 1)
    ensures forall x, y :: Count(Areas(Sequential(enc, rs, n).wire), x, y) == Count(rs[..n], x, y)
  {
    if n > 0 {
      SequentialCovers(enc, rs, n - 1);
      OnePartitions(enc, rs[n - 1]);
      var a, b := Sequential(enc, rs, n - 1).wire, One(enc, rs[n - 1]).wire;
      AreasConcat(a, b);
      CountConcat(Areas(a), Areas(b));
      assert rs[..n] == rs[..n - 1] + [rs[n - 1]];
      CountAppend(rs[..n - 1], rs[n - 1]);
    }
  }

  /** Tile-sized rectangles are sent whole: one wire rectangle per tile. */
  lemma TilesAreNotSplit(enc: Rect -> Coded, r: Rect)
    requires !r.Empty() && r.Dx() <= Tiles.TILE && r.Dy() <= Tiles.TILE
    ensures match One(enc, r)
            case Error(e) => enc(r) == Failed(e)
            case Sent(w) => enc(r).Coded? && w == [ToWire(r, enc(r))]
  {
  }

  /** The recursive closure: appends the pieces of r, or stops at the first error. */
  method EncodeOne(enc: Rect -> Coded, r: Rect, out: seq<Wire>) returns (out': seq<Wire>, err: Option<string>)
    requires !r.Empty()
    ensures match One(enc, r)
            case Error(e) => err == Some(e)
            case Sent(w) => err == None && out' == out + w
    decreases r.Dx() + r.Dy()
  {
    var c := enc(r);
    out', err := out, None;
    if c.Failed? {
      return out, Some(c.error);
    }
    if |c.payload| > MAX_PAYLOAD && (r.Dx() > Tiles.TILE || r.Dy() > Tiles.TILE) {
      var (a, b) := Halves(r);
      HalvesPartition(r);
      var left, e := EncodeOne(enc, a, out);
      if e.Some? {
        return left, e;
      }
      out', err := EncodeOne(enc, b, left);
      if err == None {
        assert (out + One(enc, a).wire) + One(enc, b).wire == out + (One(enc, a).wire + One(enc, b).wire);
      }
      return;
    }
    out' := out + [ToWire(r, c)];
  }

  datatype Worker = Idle | Working(i: nat) | Finished

  /** Steps a pool of workers can still take. */
  ghost function Pending(ws: seq<Worker>): nat {
    if ws == [] then 0 else Pending(ws[..|ws| - 1]) + match ws[|ws| - 1] case Idle => 1 case Working(_) => 2 case Finished => 0
  }

  lemma {:induction false} PendingUpdate(ws: seq<Worker>, k: nat, w: Worker)
    requires k < |ws|
    ensures Pending(ws[k := w]) + Pending([ws[k]]) == Pending(ws) + Pending([w])
  {
    var n := |ws| - 1;
    assert [ws[k]][..0] == [] && [w][..0] == [];
    if k == n {
      assert ws[k := w][..n] == ws[..n];
    } else {
      PendingUpdate(ws[..n], k, w);
      assert ws[k := w][..n] == ws[..n][k := w];
    }
  }

  /** Index i is either not handed out, in exactly one worker's hands, or answered. */
  ghost predicate PoolInv(enc: Rect -> Coded, rs: seq<Rect>, next: nat, res: seq<Option<Outcome>>, ws: seq<Worker>)
    requires NoneEmpty(rs)
  {
    && |res| == |rs|
    && (forall i :: 0 <= i < |rs| && res[i].Some? ==> i < next && res[i].value == One(enc, rs[i]))
    && (forall i :: 0 <= i < |rs| && i < next && res[i].None? ==> exists k :: 0 <= k < |ws| && ws[k] == Working(i))
    && (forall k :: 0 <= k < |ws| && ws[k].Working? ==> ws[k].i < |rs| && ws[k].i < next)
    && (forall k :: 0 <= k < |ws| && ws[k].Finished? ==> next >= |rs|)
  }

  /** Any interleaving of the workers gives the sequential answer: the same wire list, or
      the error of the first rectangle in list order that fails. */
  method EncodeRectsParallel(enc: Rect -> Coded, rects: seq<Rect>, maxWorkers: int) returns (r: Outcome)
    requires NoneEmpty(rects)
    ensures r == Sequential(enc, rects, |rects|)
  {
    var workers := if maxWorkers > |rects| then |rects| else maxWorkers;
    if workers <= 1 {
      var out: seq<Wire> := [];
      var k := 0;
      while k < |rects|
        invariant 0 <= k <= |rects| && Sequential(enc, rects, k) == Sent(out)
      {
        var err;
        FirstErrorSticks(enc, rects, k + 1);
        out, err := EncodeOne(enc, rects[k], out);
        if err.Some? {
          return Error(err.value);
        }
        k := k + 1;
      }
      return Sent(out);
    }
    var res := RunPool(enc, rects, workers);
    r := Collect(enc, rects, res);
  }

  /** The workers, in any order the scheduler picks. */
  method RunPool(enc: Rect -> Coded, rects: seq<Rect>, workers: nat) returns (res: seq<Option<Outcome>>)
    requires NoneEmpty(rects) && workers > 0
    ensures |res| == |rects| && forall i :: 0 <= i < |rects| ==> res[i] == Some(One(enc, rects[i]))
  {
    hide One;
    res := seq(|rects|, _ => None);
    var ws: seq<Worker> := seq(workers, _ => Idle);
    var next := 0;
    while exists k :: 0 <= k < |ws| && !ws[k].Finished?
      invariant 0 <= next && |ws| == workers && PoolInv(enc, rects, next, res, ws)
      decreases 2 * Max(|rects| - next, 0) + Pending(ws)
    {
      var k :| 0 <= k < |ws| && !ws[k].Finished?; // the scheduler's choice
      ghost var before := ws;
      if ws[k].Idle? {
        // atomically fetch the shared index
        var i := next;
        next := next + 1;
        var w := if i >= |rects| then Finished else Working(i);
        PendingUpdate(ws, k, w);
        ws := ws[k := w];
        assert i < |rects| ==> ws[k] == Working(i);
      } else {
        var i := ws[k].i;
        var one, err := EncodeOne(enc, rects[i], []);
        assert [] + one == one;
        res := res[i := Some(if err.Some? then Error(err.value) else Sent(one))];
        PendingUpdate(ws, k, Idle);
        ws := ws[k := Idle];
      }
      assert forall l :: 0 <= l < |ws| && l != k ==> ws[l] == before[l];
    }
    assert ws[0].Finished?;
  }

  lemma {:induction false} FirstErrorSticks(enc: Rect -> Coded, rs: seq<Rect>, k: nat)
    requires k <= |rs| && NoneEmpty(rs)
    ensures forall n :: k <= n <= |rs| && Sequential(enc, rs, k).Error? ==> Sequential(enc, rs, n) == Sequential(enc, rs, k)
  {
    if Sequential(enc, rs, k).Error? {
      var n := k;
      while n < |rs|
        invariant k <= n <= |rs|
        invariant forall m :: k <= m <= n ==> Sequential(enc, rs, m) == Sequential(enc, rs, k)
      {
        n := n + 1;
      }
    }
  }

  /** Joins the per-index results: the first error by index, else the concatenation. */
  method Collect(enc: Rect -> Coded, rects: seq<Rect>, res: seq<Option<Outcome>>) returns (r: Outcome)
    requires NoneEmpty(rects) && |res| == |rects|
    requires forall i :: 0 <= i < |rects| ==> res[i] == Some(One(enc, rects[i]))
    ensures r == Sequential(enc, rects, |rects|)
  {
    var out: seq<Wire> := [];
    var i := 0;
    while i < |res|
      invariant 0 <= i <= |res| && Sequential(enc, rects, i) == Sent(out)
    {
      FirstErrorSticks(enc, rects, i + 1);
      if res[i].value.Error? {
        return res[i].value;
      }
      out := out + res[i].value.wire;
      i := i + 1;
    }
    return Sent(out);
  }
}
