/** What the sender puts on the wire and what the viewer's canvas becomes. Encoding is
    taken as lossless: a payload decodes to the pixels it was made from. */
module Viewer {
  import opened Geometry
  import opened Raster
  import opened Tiles
  import opened Merge
  import opened Jobs
  import E = Encode

  const MAX_RECT_DIM: int := 256

  predicate NoPixels(f: Img) {
    f.w == 0 || f.h == 0
  }

  /** Pixels of the flagged tiles from `frame`, the rest from `base`. */
  ghost function Overlay(base: Img, frame: Img, dirty: seq<bool>): Img
    requires base.Valid() && frame.Valid() && SameSize(base, frame)
  {
    Img(frame.w, frame.h, seq(frame.h, y requires 0 <= y < frame.h =>
      seq(frame.w, x requires 0 <= x < frame.w => if DirtyAt(dirty, frame.w, frame.h, x, y) then frame.At(x, y) else base.At(x, y))))
  }

  ghost predicate CanvasOK(c: Option<Img>) {
    c.Some? ==> c.value.Valid()
  }

  /** The meaning of a layer update for the viewer's canvas of that layer. */
  ghost function Apply(c: Option<Img>, j: LayerJob): Option<Img>
    requires CanvasOK(c) && JobOK(j)
  {
    if NoPixels(j.frame) then c
    else if j.key then Some(j.frame)
    else if c.Some? && SameSize(c.value, j.frame) then Some(Overlay(c.value, j.frame, j.dirty))
    else c
  }

  lemma ApplyOK(c: Option<Img>, j: LayerJob)
    requires CanvasOK(c) && JobOK(j)
    ensures CanvasOK(Apply(c, j))
  {
  }

  // ---- the wire ----

  type Decoder = (byte, seq<byte>) -> (int, int) -> Pixel

  /** A frame message: header and rectangles. */
  datatype Message = Message(layer: int, key: bool, w: int, h: int, wire: seq<E.Wire>)

  /** Every payload the encoder makes of this frame decodes to the frame's pixels. */
  ghost predicate Lossless(enc: Rect -> E.Coded, dec: Decoder, frame: Img)
    requires frame.Valid()
  {
    forall r: Rect, x, y :: r.Within(frame.w, frame.h) && r.Has(x, y) && enc(r).Coded? ==>
                              dec(enc(r).tag, enc(r).payload)(x - r.x0, y - r.y0) == frame.At(x, y)
  }

  /** Pastes the wire rectangles one after the other. */
  ghost function Paint(base: Img, wire: seq<E.Wire>, dec: Decoder): Img
    requires base.Valid()
    ensures Paint(base, wire, dec).Valid() && SameSize(Paint(base, wire, dec), base)
  {
    if wire == [] then base else
    var b := Paint(base, wire[..|wire| - 1], dec);
    var p := wire[|wire| - 1];
    Img(b.w, b.h, seq(b.h, y requires 0 <= y < b.h =>
      seq(b.w, x requires 0 <= x < b.w => if p.Area().Has(x, y) then dec(p.tag, p.payload)(x - p.x, y - p.y) else b.At(x, y))))
  }

  ghost function Blank(w: nat, h: nat): Img {
    Img(w, h, seq(h, _ => seq(w, _ => Pixel(0, 0, 0, 0))))
  }

  /** The viewer: a key message starts a new canvas, a delta needs one of its size. */
  ghost function Receive(c: Option<Img>, m: Option<Message>, dec: Decoder): Option<Img>
    requires CanvasOK(c)
  {
    if m.None? || m.value.w < 0 || m.value.h < 0 then c
    else if m.value.key then Some(Paint(Blank(m.value.w, m.value.h), m.value.wire, dec))
    else if c.Some? && c.value.w == m.value.w && c.value.h == m.value.h then Some(Paint(c.value, m.value.wire, dec))
    else c
  }

  /** Pieces that carry exactly their own area of the frame. */
  ghost predicate FaithfulPieces(enc: Rect -> E.Coded, wire: seq<E.Wire>, frame: Img) {
    forall k :: 0 <= k < |wire| ==> wire[k].Area().Within(frame.w, frame.h)
                                    && enc(wire[k].Area()) == E.Coded(wire[k].tag, wire[k].payload)
  }

  lemma PaintStep(base: Img, wire: seq<E.Wire>, dec: Decoder, x: int, y: int)
    requires base.Valid() && wire != [] && 0 <= x < base.w && 0 <= y < base.h
    ensures var n := |wire| - 1;
            var p := wire[n];
            && Paint(base, wire, dec).At(x, y)
               == (if p.Area().Has(x, y) then dec(p.tag, p.payload)(x - p.x, y - p.y) else Paint(base, wire[..n], dec).At(x, y))
            && Count(E.Areas(wire), x, y) == Count(E.Areas(wire[..n]), x, y) + Bit(p.Area().Has(x, y))
  {
    var n := |wire| - 1;
    assert E.Areas(wire)[..n] == E.Areas(wire[..n]);
  }

  lemma {:induction false} PaintIsOverlay(base: Img, frame: Img, wire: seq<E.Wire>, enc: Rect -> E.Coded, dec: Decoder, x: int, y: int)
    requires base.Valid() && frame.Valid() && SameSize(base, frame) && Lossless(enc, dec, frame)
    requires FaithfulPieces(enc, wire, frame) && 0 <= x < frame.w && 0 <= y < frame.h
    ensures Paint(base, wire, dec).At(x, y) == if Count(E.Areas(wire), x, y) > 0 then frame.At(x, y) else base.At(x, y)
  {
    if wire == [] {
      assert Paint(base, wire, dec) == base && E.Areas(wire) == [];
    } else {
      var n := |wire| - 1;
      PaintIsOverlay(base, frame, wire[..n], enc, dec, x, y);
      PaintStep(base, wire, dec, x, y);
      hide Paint, Count;
      assert wire[n].Area().Within(frame.w, frame.h);
    }
  }

  /** The pieces of a rectangle of the frame are faithful. */
  lemma {:induction false} PiecesAreFaithful(enc: Rect -> E.Coded, rs: seq<Rect>, n: nat, frame: Img)
    requires frame.w <= 65535 && frame.h <= 65535 && n <= |rs| && GoodRects(rs, frame.w, frame.h)
    requires E.Sequential(enc, rs, n).Sent?
    ensures FaithfulPieces(enc, E.Sequential(enc, rs, n).wire, frame)
  {
    if n > 0 {
      PiecesAreFaithful(enc, rs, n - 1, frame);
      var w := E.One(enc, rs[n - 1]).wire;
      E.OnePartitions(enc, rs[n - 1]);
      forall k | 0 <= k < |w|
        ensures w[k].Area().Within(frame.w, frame.h)
      {
        PieceInside(enc, rs[n - 1], k);
      }
    }
  }

  predicate Inside(a: Rect, r: Rect) {
    r.x0 <= a.x0 <= a.x1 <= r.x1 && r.y0 <= a.y0 <= a.y1 <= r.y1
  }

  lemma HalvesInside(r: Rect)
    requires !r.Empty() && (r.Dx() > TILE || r.Dy() > TILE)
    ensures var (a, b) := E.Halves(r);
            !a.Empty() && !b.Empty() && Inside(a, r) && Inside(b, r)
            && a.Dx() + a.Dy() < r.Dx() + r.Dy() && b.Dx() + b.Dy() < r.Dx() + r.Dy()
  {
  }

  lemma OneSplits(enc: Rect -> E.Coded, r: Rect)
    requires !r.Empty() && E.One(enc, r).Sent?
    ensures if E.MustSplit(enc(r), r) then
              var (a, b) := E.Halves(r);
              !a.Empty() && !b.Empty() && E.One(enc, a).Sent? && E.One(enc, b).Sent? && E.One(enc, r).wire == E.One(enc, a).wire + E.One(enc, b).wire
            else enc(r).Coded? && E.One(enc, r).wire == [E.ToWire(r, enc(r))]
  {
  }

  lemma PieceInside(enc: Rect -> E.Coded, r: Rect, k: nat)
    requires !r.Empty() && r.Within(65535, 65535) && E.One(enc, r).Sent? && k < |E.One(enc, r).wire|
    ensures Inside(E.One(enc, r).wire[k].Area(), r)
    decreases r.Dx() + r.Dy()
  {
    OneSplits(enc, r);
    if E.MustSplit(enc(r), r) {
      HalvesInside(r);
      hide E.One, E.Halves, E.MustSplit;
      var (a, b) := E.Halves(r);
      if k < |E.One(enc, a).wire| {
        PieceInside(enc, a, k);
      } else {
        PieceInside(enc, b, k - |E.One(enc, a).wire|);
      }
    }
  }

  /** The rectangles sendLoop requests for a layer update. */
  method RectsOf(j: LayerJob) returns (rects: seq<Rect>)
    requires JobOK(j)
    ensures GoodRects(rects, j.frame.w, j.frame.h)
    ensures forall x, y :: Count(rects, x, y) == Bit(if j.key then Rect(0, 0, j.frame.w, j.frame.h).Has(x, y) else DirtyAt(j.dirty, j.frame.w, j.frame.h, x, y))
    ensures j.layer >= 0 ==> forall k :: 0 <= k < |rects| ==> rects[k].Dx() <= TILE && rects[k].Dy() <= TILE
  {
    var w, h := j.frame.w, j.frame.h;
    if j.layer < 0 && j.key {
      rects := SplitRect(Rect(0, 0, w, h), MAX_RECT_DIM);
    } else if j.layer < 0 {
      var merged := MergeDirty(j.dirty, TilesFor(w), TilesFor(h), w, h);
      rects := SplitAll(merged, w, h);
    } else {
      var dirty := j.dirty;
      if j.key {
        dirty := seq(TilesFor(w) * TilesFor(h), _ => true);
        forall x, y | 0 <= x < w && 0 <= y < h
          ensures DirtyAt(dirty, w, h, x, y)
        {
          FullMask(dirty, w, h, x, y);
        }
      }
      rects := LayerTileRects(dirty, TilesFor(w), TilesFor(h), w, h);
    }
  }

  method SplitAll(merged: seq<Rect>, w: nat, h: nat) returns (rects: seq<Rect>)
    requires GoodRects(merged, w, h)
    ensures GoodRects(rects, w, h)
    ensures forall x, y :: Count(rects, x, y) == Count(merged, x, y)
  {
    rects := [];
    var k := 0;
    while k < |merged|
      invariant 0 <= k <= |merged| && GoodRects(rects, w, h)
      invariant forall x, y :: Count(rects, x, y) == Count(merged[..k], x, y)
    {
      var pieces := SplitRect(merged[k], MAX_RECT_DIM);
      CountConcat(rects, pieces);
      assert merged[..k + 1] == merged[..k] + [merged[k]];
      CountAppend(merged[..k], merged[k]);
      rects := rects + pieces;
      k := k + 1;
    }
    assert merged[..k] == merged;
  }

  /** Encodes and packs one layer update. Whatever canvas the viewer has, receiving the
      message does to it exactly what the update means. */
  method SendLayer(j: LayerJob, enc: Rect -> E.Coded, ghost dec: Decoder, workers: int) returns (msg: Option<Message>, err: Option<string>)
    requires JobOK(j) && Lossless(enc, dec, j.frame)
    ensures err == None ==> forall c :: CanvasOK(c) ==> Receive(c, msg, dec) == Apply(c, j)
    ensures msg.Some? ==> msg.value.layer == j.layer && (j.layer >= 0 ==> forall k :: 0 <= k < |msg.value.wire| ==>
                            msg.value.wire[k].w <= TILE && msg.value.wire[k].h <= TILE)
  {
    var rects := RectsOf(j);
    if |rects| == 0 {
      NothingToSend(j);
      return None, None;
    }
    var out := E.EncodeRectsParallel(enc, rects, workers);
    if out.Error? {
      return None, Some(out.error);
    }
    var w, h := j.frame.w, j.frame.h;
    msg, err := Some(Message(j.layer, j.key, w, h, out.wire)), None;
    assert rects[..|rects|] == rects;
    E.SequentialCovers(enc, rects, |rects|);
    PiecesAreFaithful(enc, rects, |rects|, j.frame);
    NonEmptyHasPixels(rects, w, h);
    forall c | CanvasOK(c)
      ensures Receive(c, msg, dec) == Apply(c, j)
    {
      ReceiveIsApply(c, j, out.wire, enc, dec);
    }
    if j.layer >= 0 {
      TilePieces(enc, rects, |rects|);
    }
  }

  lemma NonEmptyHasPixels(rects: seq<Rect>, w: nat, h: nat)
    requires GoodRects(rects, w, h) && |rects| > 0
    ensures w > 0 && h > 0
  {
    assert rects[0].Within(w, h);
  }

  lemma NothingToSend(j: LayerJob)
    requires JobOK(j)
    requires forall x, y :: 0 == Bit(if j.key then Rect(0, 0, j.frame.w, j.frame.h).Has(x, y) else DirtyAt(j.dirty, j.frame.w, j.frame.h, x, y))
    ensures forall c :: CanvasOK(c) ==> Apply(c, j) == c
  {
    if j.key {
      assert !Rect(0, 0, j.frame.w, j.frame.h).Has(0, 0);
    } else {
      forall c | CanvasOK(c)
        ensures Apply(c, j) == c
      {
        if c.Some? && SameSize(c.value, j.frame) {
          var o := Overlay(c.value, j.frame, j.dirty);
          forall x, y
            ensures AgreeAt(o, c.value, x, y)
          {
            assert Bit(DirtyAt(j.dirty, j.frame.w, j.frame.h, x, y)) == 0;
          }
          SamePixels(o, c.value);
        }
      }
    }
  }

  lemma ReceiveIsApply(c: Option<Img>, j: LayerJob, wire: seq<E.Wire>, enc: Rect -> E.Coded, dec: Decoder)
    requires CanvasOK(c) && JobOK(j) && !NoPixels(j.frame)
    requires Lossless(enc, dec, j.frame) && FaithfulPieces(enc, wire, j.frame)
    requires forall x, y :: Count(E.Areas(wire), x, y)
                            == Bit(if j.key then Rect(0, 0, j.frame.w, j.frame.h).Has(x, y) else DirtyAt(j.dirty, j.frame.w, j.frame.h, x, y))
    ensures Receive(c, Some(Message(j.layer, j.key, j.frame.w, j.frame.h, wire)), dec) == Apply(c, j)
  {
    var w, h := j.frame.w, j.frame.h;
    if j.key || (c.Some? && SameSize(c.value, j.frame)) {
      var base := if j.key then Blank(w, h) else c.value;
      var want := if j.key then j.frame else Overlay(c.value, j.frame, j.dirty);
      var got := Paint(base, wire, dec);
      forall x, y
        ensures AgreeAt(got, want, x, y)
      {
        if 0 <= x < w && 0 <= y < h {
          PaintIsOverlay(base, j.frame, wire, enc, dec, x, y);
        }
      }
      SamePixels(got, want);
    }
  }

  lemma {:induction false} TilePieces(enc: Rect -> E.Coded, rs: seq<Rect>, n: nat)
    requires n <= |rs| && NoneEmpty(rs) && E.Sequential(enc, rs, n).Sent?
    requires forall k :: 0 <= k < |rs| ==> rs[k].Dx() <= TILE && rs[k].Dy() <= TILE
    ensures forall k :: 0 <= k < |E.Sequential(enc, rs, n).wire| ==>
                          E.Sequential(enc, rs, n).wire[k].w <= TILE && E.Sequential(enc, rs, n).wire[k].h <= TILE
  {
    if n > 0 {
      TilePieces(enc, rs, n - 1);
      E.TilesAreNotSplit(enc, rs[n - 1]);
    }
  }
}
