/** The three promises in a row: the capturer's hints are what the helper's server relies on,
    and what the helper's client returns is what the pipeline relies on. */
module EndToEnd {
  import opened Geometry
  import opened Raster
  import opened Hint
  import opened HelperPixels
  import opened HelperLink
  import Dxgi
  import HelperSync
  import History
  import Pipe

  // ---- one image, as bytes and as pixels ----

  function PixelAt(f: Flat, x: int, y: int): Pixel {
    Pixel(ByteAt(f.pix, 4 * f.w, y, 4 * x), ByteAt(f.pix, 4 * f.w, y, 4 * x + 1),
          ByteAt(f.pix, 4 * f.w, y, 4 * x + 2), ByteAt(f.pix, 4 * f.w, y, 4 * x + 3))
  }

  function Unflat(f: Flat): (img: Img)
    ensures img.Valid() && img.w == f.w && img.h == f.h
    ensures forall x, y :: 0 <= x < f.w && 0 <= y < f.h ==> img.At(x, y) == PixelAt(f, x, y)
  {
    Img(f.w, f.h, seq(f.h, y => seq(f.w, x => PixelAt(f, x, y))))
  }

  /** Byte i of a row of pixels. */
  function RowByte(img: Img, y: int, i: int): byte
    requires img.Valid() && 0 <= y < img.h && 0 <= i < 4 * img.w
  {
    Component(img.At(i / 4, y), i % 4)
  }

  function Flatten(img: Img): (f: Flat)
    requires img.Valid()
    ensures f.Valid() && f.w == img.w && f.h == img.h
  {
    Flat(img.w, img.h, seq(4 * img.w * img.h, k requires 0 <= k < 4 * img.w * img.h =>
      InRow(img.w, img.h, k);
      RowByte(img, k / (4 * img.w), k % (4 * img.w))))
  }

  lemma InRow(w: nat, h: nat, k: int)
    requires 0 <= k < 4 * w * h
    ensures w > 0 && 0 <= k / (4 * w) < h && 0 <= k % (4 * w) < 4 * w
  {
    var y, b := OffsetOf(w, h, k);
    RowOf(w, y, b);
  }

  lemma RowOf(w: nat, y: int, b: int)
    requires 0 <= b < 4 * w
    ensures (y * (4 * w) + b) / (4 * w) == y && (y * (4 * w) + b) % (4 * w) == b
  {
    var n, k := 4 * w, y * (4 * w) + b;
    MulMono(k / n + 1, y, n);
    MulMono(y + 1, k / n, n);
  }

  lemma FlattenByte(img: Img, y: int, i: int)
    requires img.Valid() && 0 <= y < img.h && 0 <= i < 4 * img.w
    ensures ByteAt(Flatten(img).pix, 4 * img.w, y, i) == RowByte(img, y, i)
  {
    InBuffer(img.w, img.h, y, i);
    RowOf(img.w, y, i);
  }

  function Component(p: Pixel, c: int): byte {
    if c == 0 then p.r else if c == 1 then p.g else if c == 2 then p.b else p.a
  }

  lemma FlattenedComponent(img: Img, x: int, y: int, c: int)
    requires img.Valid() && 0 <= x < img.w && 0 <= y < img.h && 0 <= c < 4
    ensures ByteAt(Flatten(img).pix, 4 * img.w, y, 4 * x + c) == Component(img.At(x, y), c)
  {
    FlattenByte(img, y, 4 * x + c);
    hide Flatten, ByteAt;
    assert (4 * x + c) / 4 == x && (4 * x + c) % 4 == c;
  }

  lemma FlattenedPixel(img: Img, x: int, y: int)
    requires img.Valid() && 0 <= x < img.w && 0 <= y < img.h
    ensures PixelAt(Flatten(img), x, y) == img.At(x, y)
  {
    hide Flatten, ByteAt;
    FlattenedComponent(img, x, y, 0);
    FlattenedComponent(img, x, y, 1);
    FlattenedComponent(img, x, y, 2);
    FlattenedComponent(img, x, y, 3);
  }

  lemma FlattenedBack(img: Img)
    requires img.Valid()
    ensures Unflat(Flatten(img)) == img
  {
    hide Flatten, PixelAt;
    forall x, y
      ensures AgreeAt(Unflat(Flatten(img)), img, x, y)
    {
      if 0 <= x < img.w && 0 <= y < img.h {
        FlattenedPixel(img, x, y);
      }
    }
    SamePixels(Unflat(Flatten(img)), img);
  }

  /** A byte differs exactly when its pixel does. */
  lemma ByteOfPixel(a: Flat, b: Flat, y: int, i: int)
    requires a.w == b.w && a.h == b.h && 0 <= y < a.h && 0 <= i < 4 * a.w
    ensures Unflat(a).At(i / 4, y) == Unflat(b).At(i / 4, y) ==> HelperSync.SameByte(a, b, y, i)
  {
    hide ByteAt;
    assert Unflat(a).At(i / 4, y) == PixelAt(a, i / 4, y) && Unflat(b).At(i / 4, y) == PixelAt(b, i / 4, y);
    assert i == 4 * (i / 4) || i == 4 * (i / 4) + 1 || i == 4 * (i / 4) + 2 || i == 4 * (i / 4) + 3;
  }

  lemma PixelOfBytes(a: Flat, b: Flat, x: int, y: int)
    requires a.w == b.w && a.h == b.h && 0 <= y < a.h && 0 <= x < a.w
    requires forall i :: 4 * x <= i < 4 * x + 4 ==> HelperSync.SameByte(a, b, y, i)
    ensures Unflat(a).At(x, y) == Unflat(b).At(x, y)
  {
    hide ByteAt;
    assert HelperSync.SameByte(a, b, y, 4 * x) && HelperSync.SameByte(a, b, y, 4 * x + 1);
    assert HelperSync.SameByte(a, b, y, 4 * x + 2) && HelperSync.SameByte(a, b, y, 4 * x + 3);
  }

  // ---- capturer to server ----

  /** The server's last image is the last one the capturer returned. */
  ghost predicate Mirrors(s: Server, last: Option<Img>) {
    if last.Some? then s.last.Some? && Unflat(s.last.value.img) == last.value else s.last.None?
  }

  lemma CanonCovers(rs: seq<Rect>, x: int, y: int)
    ensures InSome(rs, x, y) ==> exists k :: 0 <= k < |rs| && rs[k].Canon().Has(x, y)
  {
    if InSome(rs, x, y) {
      var k :| 0 <= k < |rs| && rs[k].Has(x, y);
      assert rs[k].Canon().Has(x, y);
    }
  }

  /** A hint that covers the change since the last image returned is sound for the server. */
  lemma CoveringIsSound(s: Server, d: int, shot: Shot, hint: seq<Rect>, last: Option<Img>)
    requires Mirrors(s, last) && shot.minX == 0 && shot.minY == 0
    requires HintCovers(last, Unflat(shot.img), SrcHint(true, hint))
    ensures HelperSync.HintSound(s, d, shot, hint)
  {
    if s.last.Some? && s.last.value.img.w == shot.img.w && s.last.value.img.h == shot.img.h {
      forall y, i | 0 <= y < shot.img.h && 0 <= i < 4 * shot.img.w
                    && !(exists k :: 0 <= k < |hint| && hint[k].Canon().Has(shot.minX + i / 4, shot.minY + y))
        ensures HelperSync.SameByte(shot.img, s.last.value.img, y, i)
      {
        CanonCovers(hint, i / 4, y);
        assert AgreeAt(last.value, Unflat(shot.img), i / 4, y);
        ByteOfPixel(shot.img, s.last.value.img, y, i);
      }
    }
  }

  /** The server's state after an answer of its backend. */
  function After(s: Server, d: int, res: Back): Server {
    if res.Image? then Server(Some(res.shot), d) else s
  }

  lemma ServerIsAfter(s: Server, s': Server, d: int, res: Back, m: Meta, resp: Response)
    requires ServerStep(s, s', d, res, m, resp)
    ensures s' == After(s, d, res)
  {
  }

  /** The desktop-duplication capturer as the server's backend: what it answers meets the
      promise the delta protocol rests on, and the two stay in step. */
  method Ask(cap: Dxgi.DxgiCapturer, ghost s: Server, d: int, e: Dxgi.Env, msg: seq<byte>) returns (res: Back)
    requires cap.Valid() && cap.clock <= e.now <= e.later && Mirrors(s, cap.last)
    requires cap.SourceOK(e.next, if cap.isOpen && cap.display == d then cap.source else None)
    requires e.fallback.Some? ==> e.fallback.value.Valid()
    modifies cap
    ensures cap.Valid() && Mirrors(After(s, d, res), cap.last)
    ensures res.Image? ==> ShotOK(res.shot) && res.shot.minX == 0 && res.shot.minY == 0
    ensures res.Image? && res.hinted ==> HelperSync.HintSound(s, d, res.shot, res.hint)
  {
    ghost var last := cap.last;
    var img, hint, hinted, err := cap.CaptureHinted(d, e);
    if img.None? {
      return if err then Failed(msg) else NoImage(hinted);
    }
    var shot := Shot(0, 0, Flatten(img.value));
    FlattenedBack(img.value);
    if hinted {
      CoveringIsSound(s, d, shot, hint, last);
    }
    res := Image(shot, hint, hinted);
  }

  // ---- client to pipeline ----

  /** The last image the client's caller was given. */
  ghost function Held(ls: seq<HelperSync.Link>, acts: seq<HelperSync.Action>, n: nat): Option<Flat>
    requires n <= |acts|
  {
    if n == 0 then None else
    match acts[n - 1]
    case Exchange(_, _, _, _, Whole(img)) => Some(img)
    case Exchange(_, _, _, _, Hinted(img, _)) => Some(img)
    case _ => Held(ls, acts, n - 1)
  }

  /** One exchange: the canvas afterwards is the image handed out, or the one before. */
  lemma CanvasAfter(ls: seq<HelperSync.Link>, acts: seq<HelperSync.Action>, n: nat)
    requires HelperSync.IsRun(ls, acts) && n < |acts| && acts[n].Exchange? && ls[n + 1].cl.canvas.Some?
    ensures match acts[n].r
            case Whole(img) => ls[n + 1].cl.canvas == Some(img)
            case Hinted(img, _) => ls[n + 1].cl.canvas == Some(img)
            case _ => ls[n + 1].cl.canvas == ls[n].cl.canvas
  {
    HelperSync.RunKeepsInv(ls, acts, n);
    HelperSync.RunKeepsInv(ls, acts, n + 1);
    HelperSync.ReturnedFramesAreTrue(ls, acts, n);
    var l, a, l' := ls[n], acts[n], ls[n + 1];
    assert HelperSync.Step(l, a, l');
    assert l'.cl.canvas == Some(l'.srv.last.value.img);
    hide HelperSync.Step, HelperSync.IsRun;
    if a.r == Error {
      assert HelperSync.Step(l, a, l') by { RunSteps(ls, acts, n); }
      if l'.up {
        ErrorKeepsClient(l, a, l');
      } else {
        HelperSync.DroppedHasNoCanvas(l, a, l');
      }
    }
  }

  lemma RunSteps(ls: seq<HelperSync.Link>, acts: seq<HelperSync.Action>, n: nat)
    requires HelperSync.IsRun(ls, acts) && n < |acts|
    ensures HelperSync.Step(ls[n], acts[n], ls[n + 1])
  {
  }

  ghost predicate Holds(ls: seq<HelperSync.Link>, acts: seq<HelperSync.Action>, n: nat)
    requires n <= |acts| && n < |ls|
  {
    ls[n].cl.canvas.Some? ==> Held(ls, acts, n) == ls[n].cl.canvas
  }

  lemma ExchangeHolds(ls: seq<HelperSync.Link>, acts: seq<HelperSync.Action>, n: nat)
    requires HelperSync.IsRun(ls, acts) && n < |acts| && acts[n].Exchange? && Holds(ls, acts, n)
    ensures Holds(ls, acts, n + 1)
  {
    hide HelperSync.Step, HelperSync.IsRun;
    RunShape(ls, acts);
    if ls[n + 1].cl.canvas.Some? {
      CanvasAfter(ls, acts, n);
    }
  }

  /** A canvas always shows the image the caller holds. */
  lemma {:induction false} CanvasIsHeld(ls: seq<HelperSync.Link>, acts: seq<HelperSync.Action>, n: nat)
    requires HelperSync.IsRun(ls, acts) && n <= |acts|
    ensures n < |ls| && Holds(ls, acts, n)
  {
    hide Holds, HelperSync.Step, HelperSync.IsRun;
    RunShape(ls, acts);
    if n == 0 {
      NoCanvasHolds(ls, acts, 0);
    } else {
      CanvasIsHeld(ls, acts, n - 1);
      if acts[n - 1].Exchange? {
        ExchangeHolds(ls, acts, n - 1);
      } else {
        NoExchange(ls, acts, n - 1);
        NoCanvasHolds(ls, acts, n);
      }
    }
  }

  lemma NoCanvasHolds(ls: seq<HelperSync.Link>, acts: seq<HelperSync.Action>, n: nat)
    requires n <= |acts| && n < |ls| && ls[n].cl.canvas.None?
    ensures Holds(ls, acts, n)
  {
  }

  lemma RunShape(ls: seq<HelperSync.Link>, acts: seq<HelperSync.Action>)
    requires HelperSync.IsRun(ls, acts)
    ensures |ls| == |acts| + 1 && ls[0].cl.canvas == None
  {
    hide HelperSync.Step;
  }

  lemma NoExchange(ls: seq<HelperSync.Link>, acts: seq<HelperSync.Action>, n: nat)
    requires HelperSync.IsRun(ls, acts) && n < |acts| && !acts[n].Exchange?
    ensures ls[n + 1].cl.canvas == None
  {
    RunSteps(ls, acts, n);
  }

  lemma ErrorKeepsClient(l: HelperSync.Link, a: HelperSync.Action, l': HelperSync.Link)
    requires HelperSync.Inv(l) && a.Exchange? && HelperSync.Step(l, a, l') && l'.up && a.r == Error
    ensures l'.cl == l.cl
  {
    if a.resp.Refused? {
      HelperSync.RefusedKeepsInv(l, a, l');
    } else {
      HelperSync.AcceptedKeepsInv(l, a, l');
      HelperSync.AcceptedResult(l, a, l');
    }
  }

  function HeldImg(f: Option<Flat>): Option<Img> {
    if f.Some? then Some(Unflat(f.value)) else None
  }

  /** What the session's capture call makes of a result: a hinted frame without rectangles is
      no change, and no change (when a key is owed) is the last image with an empty hint. */
  function TurnInput(r: Result, lastSrc: Option<Img>): Option<(Img, SrcHint)> {
    match r
    case Error => None
    case Whole(img) => Some((Unflat(img), SrcHint(false, [])))
    case Hinted(img, rects) =>
      if rects != [] then Some((Unflat(img), SrcHint(true, rects)))
      else if lastSrc.Some? then Some((lastSrc.value, SrcHint(true, []))) else None
    case Unchanged => if lastSrc.Some? then Some((lastSrc.value, SrcHint(true, []))) else None
  }

  lemma BytesInPixel(rects: seq<Rect>, x: int, y: int, i: int)
    requires 4 * x <= i < 4 * x + 4
    ensures (exists k :: 0 <= k < |rects| && BytesIn(rects[k], y, i)) ==> InSome(rects, x, y)
  {
    if k :| 0 <= k < |rects| && BytesIn(rects[k], y, i) {
      assert rects[k].Has(x, y);
    }
  }

  /** A hinted frame differs from the one held before at most inside its rectangles. */
  lemma HintedIsCovered(held: Flat, img: Flat, rects: seq<Rect>)
    requires held.w == img.w && held.h == img.h
    requires forall y, i :: 0 <= y < img.h && 0 <= i < 4 * img.w && !HelperSync.SameByte(img, held, y, i) ==>
                              exists k :: 0 <= k < |rects| && BytesIn(rects[k], y, i)
    ensures AgreeOutside(Unflat(held), Unflat(img), rects)
  {
    forall x, y | !InSome(rects, x, y) && 0 <= x < img.w && 0 <= y < img.h
      ensures AgreeAt(Unflat(held), Unflat(img), x, y)
    {
      forall i | 4 * x <= i < 4 * x + 4
        ensures HelperSync.SameByte(img, held, y, i)
      {
        BytesInPixel(rects, x, y, i);
      }
      PixelOfBytes(img, held, x, y);
    }
  }

  /** Every frame the helper's client returns is a capture as the pipeline's source promises:
      a session that turns on it, having turned on the frames returned before, is given the
      change since its last image; and it holds the new one afterwards. */
  lemma FramesArePromised(ls: seq<HelperSync.Link>, acts: seq<HelperSync.Action>, n: nat, s: Pipe.Sys, a: Pipe.Action)
    requires HelperSync.IsRun(ls, acts) && n < |acts| && acts[n].Exchange?
    requires s.lastSrc == HeldImg(Held(ls, acts, n))
    requires a.Turn? && TurnInput(acts[n].r, s.lastSrc) == Some((a.img, a.hint))
    ensures History.Promised(s, a) && HeldImg(Held(ls, acts, n + 1)) == Some(a.img)
  {
    HelperSync.ReturnedFramesAreTrue(ls, acts, n);
    CanvasIsHeld(ls, acts, n);
    match acts[n].r
    case Hinted(img, rects) =>
      var held := Held(ls, acts, n).value;
      HintedIsCovered(held, img, rects);
      if rects == [] {
        forall x, y
          ensures AgreeAt(Unflat(held), Unflat(img), x, y)
        {
        }
        SamePixels(Unflat(held), Unflat(img));
      }
    case _ =>
  }

  /** And a frame that is not hinted away always arrives: only an error gives no input. */
  lemma ReturnedFramesAreInputs(ls: seq<HelperSync.Link>, acts: seq<HelperSync.Action>, n: nat)
    requires HelperSync.IsRun(ls, acts) && n < |acts| && acts[n].Exchange?
    ensures TurnInput(acts[n].r, HeldImg(Held(ls, acts, n))).Some? <==> acts[n].r != Error
  {
    HelperSync.ReturnedFramesAreTrue(ls, acts, n);
    CanvasIsHeld(ls, acts, n);
  }
}
