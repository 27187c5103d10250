/** The delta protocol over whole runs: connects, exchanges and failures in any order. */
module HelperSync {
  import opened Geometry
  import opened Raster
  import opened HelperProto
  import opened HelperPixels
  import opened HelperLink

  /** Two images agree at byte b of row y. */
  ghost predicate SameByte(a: Flat, b: Flat, y: int, i: int)
    requires a.w == b.w
  {
    ByteAt(a.pix, 4 * a.w, y, i) == ByteAt(b.pix, 4 * a.w, y, i)
  }

  /** The backend's promise: relative to the last image it returned for this display and
      size, a hinted image differs at most inside its hint. */
  ghost predicate HintSound(s: Server, d: int, shot: Shot, hint: seq<Rect>) {
    s.last.Some? && s.lastDisp == d && s.last.value.img.w == shot.img.w && s.last.value.img.h == shot.img.h ==>
      forall y, i :: 0 <= y < shot.img.h && 0 <= i < 4 * shot.img.w
                     && !(exists k :: 0 <= k < |hint| && hint[k].Canon().Has(shot.minX + i / 4, shot.minY + y))
                     ==> SameByte(shot.img, s.last.value.img, y, i)
  }

  ghost predicate BackOK(s: Server, d: int, res: Back) {
    match res
    case Failed(_) => true
    case NoImage(_) => true
    case Image(shot, hint, hinted) =>
      ShotOK(shot) && shot.img.w < U32 / 2 && shot.img.h < U32 / 2 && |hint| < U32 && (hinted ==> HintSound(s, d, shot, hint))
  }

  ghost predicate MetaOK(m: Meta) {
    IsI32Rect(m.bounds) && m.bounds.Canon() == m.bounds && 0 <= m.displays < 0x1_0000 && |m.via| < MAX_STR
  }

  datatype Link = Link(up: bool, srv: Server, cl: Client)

  /** On a live link, a canvas holds the server's last image of the same display. */
  ghost predicate Inv(l: Link) {
    && (l.srv.last.Some? ==> ShotOK(l.srv.last.value) && l.srv.last.value.img.w < U32 / 2 && l.srv.last.value.img.h < U32 / 2)
    && (!l.up ==> l.cl.canvas == None)
    && (l.cl.canvas.Some? ==> l.srv.last.Some? && l.srv.lastDisp == l.cl.disp && l.cl.canvas.value == l.srv.last.value.img)
  }

  datatype Action =
    | Connect                              // a new helper process behind a new link
    | Lose                                 // any failure, before or after the server acted
    | Exchange(d: int, res: Back, m: Meta, resp: Response, r: Result)

  ghost predicate Step(l: Link, a: Action, l': Link) {
    match a
    case Connect => !l.up && l' == Link(true, Server(None, -1), Client(None, -1))
    case Lose => l' == Link(false, Server(None, -1), Client(None, -1))
    case Exchange(d, res, m, resp, r) =>
      && l.up && MetaOK(m) && BackOK(l.srv, d, res)
      && ServerStep(l.srv, l'.srv, d, res, m, resp)
      && (resp.Good? ==> |resp.c.rects| == |resp.c.pix|)
      && ClientStep(l.cl, l'.cl, d, DecodeCapResp(Encoded(resp)), !l'.up, r)
  }

  // ---- the reply on the wire ----

  lemma {:induction false} ClipCount(hint: seq<Rect>, full: Rect)
    ensures |Clip(hint, full)| <= |hint|
  {
    if hint != [] {
      ClipCount(hint[..|hint| - 1], full);
    }
  }

  lemma ReplyInRange(l: Link, d: int, res: Back, m: Meta, s': Server, resp: Response)
    requires Inv(l) && MetaOK(m) && BackOK(l.srv, d, res) && ServerStep(l.srv, s', d, res, m, resp) && resp.Good?
    ensures InRange(resp.c)
  {
    if res.Image? {
      ClipInside(res.hint, res.shot.Full());
      ClipCount(res.hint, res.shot.Full());
    }
  }

  /** The client decodes what the server meant, or refuses the reply. */
  lemma ReplyDecodes(l: Link, d: int, res: Back, m: Meta, s': Server, resp: Response)
    requires Inv(l) && MetaOK(m) && BackOK(l.srv, d, res) && ServerStep(l.srv, s', d, res, m, resp)
    ensures resp.Good? ==> |resp.c.rects| == |resp.c.pix| && (DecodeCapResp(Encoded(resp)) == Ok(resp.c) || DecodeCapResp(Encoded(resp)) == Bad)
    ensures resp.Refused? ==> DecodeCapResp(Encoded(resp)) == Remote(Cut(resp.msg)) && s' == l.srv
  {
    hide DecodeCapResp, EncodeCapOK, EncodeErr;
    if resp.Good? {
      ReplyInRange(l, d, res, m, s', resp);
      CapRoundTrip(resp.c);
    } else {
      ErrRoundTrip(resp.msg);
    }
  }

  // ---- pasting the server's rectangles ----

  /** Pasting copies of one image: its bytes where covered, the canvas elsewhere. */
  lemma {:induction false} CompositeOfCopies(base: Flat, img: Flat, rects: seq<Rect>, pix: seq<seq<byte>>, n: nat, y: int, b: int)
    requires n <= |rects| == |pix|
    requires forall k :: 0 <= k < |rects| ==> IsCopy(pix[k], img.pix, 4 * img.w, rects[k])
    requires base.w == img.w
    ensures var c := Composite(base.pix, img.w, rects, pix, n, y, b);
            c == if exists k :: 0 <= k < n && BytesIn(rects[k], y, b) then ByteAt(img.pix, 4 * img.w, y, b) else ByteAt(base.pix, 4 * img.w, y, b)
  {
    hide ByteAt;
    if n > 0 {
      CompositeOfCopies(base, img, rects, pix, n - 1, y, b);
    }
  }

  /** A hinted byte of the image is in a carried rectangle. */
  lemma HintedIsCarried(hint: seq<Rect>, shot: Shot, rects: seq<Rect>, y: int, i: int)
    requires ShotOK(shot) && |rects| == |Clip(hint, shot.Full())| && 0 <= y < shot.img.h && 0 <= i < 4 * shot.img.w
    requires forall k :: 0 <= k < |rects| ==> rects[k] == Clip(hint, shot.Full())[k].Sub(shot.minX, shot.minY)
    requires exists k :: 0 <= k < |hint| && hint[k].Canon().Has(shot.minX + i / 4, shot.minY + y)
    ensures exists k :: 0 <= k < |rects| && BytesIn(rects[k], y, i)
  {
    var k :| 0 <= k < |hint| && hint[k].Canon().Has(shot.minX + i / 4, shot.minY + y);
    ClipCovers(hint, shot.Full(), k, shot.minX + i / 4, shot.minY + y);
    var c :| 0 <= c < |rects| && Clip(hint, shot.Full())[c].Has(shot.minX + i / 4, shot.minY + y);
    assert BytesIn(rects[c], y, i);
  }

  /** Byte by byte: carried bytes are the shot's, the others did not change. */
  lemma PastedByte(l: Link, d: int, shot: Shot, hint: seq<Rect>, hinted: bool, m: Meta, c: CapResp, base: Flat, y: int, i: int)
    requires Inv(l) && ShotOK(shot) && (hinted ==> HintSound(l.srv, d, shot, hint))
    requires Carries(c, m, shot, if hinted then Clip(hint, shot.Full()) else [shot.Full()], if hinted then HINTED else 0)
    requires base.w == c.w && base.h == c.h && (Fits(l.cl, d, c) ==> base == l.cl.canvas.value)
    requires Fits(l.cl, d, c) || IsFullFrame(c)
    requires 0 <= y < shot.img.h && 0 <= i < 4 * shot.img.w
    ensures Composite(base.pix, c.w, c.rects, c.pix, |c.rects|, y, i) == ByteAt(shot.img.pix, 4 * shot.img.w, y, i)
  {
    hide ByteAt, IsCopy;
    CompositeOfCopies(base, shot.img, c.rects, c.pix, |c.rects|, y, i);
    if hinted {
      if exists k :: 0 <= k < |hint| && hint[k].Canon().Has(shot.minX + i / 4, shot.minY + y) {
        HintedIsCarried(hint, shot, c.rects, y, i);
      } else {
        assert SameByte(shot.img, l.srv.last.value.img, y, i);
      }
    } else {
      assert BytesIn(c.rects[0], y, i);
    }
  }

  /** After an accepted image reply the canvas is the server's new image. */
  lemma PastedIsShot(l: Link, d: int, shot: Shot, hint: seq<Rect>, hinted: bool, m: Meta, c: CapResp, base: Flat, canvas: Flat)
    requires Inv(l) && ShotOK(shot) && (hinted ==> HintSound(l.srv, d, shot, hint))
    requires Carries(c, m, shot, if hinted then Clip(hint, shot.Full()) else [shot.Full()], if hinted then HINTED else 0)
    requires base.Valid() && base.w == c.w && base.h == c.h && (Fits(l.cl, d, c) ==> base == l.cl.canvas.value)
    requires Fits(l.cl, d, c) || IsFullFrame(c)
    requires IsComposite(base, canvas, c.rects, c.pix)
    ensures canvas == shot.img
  {
    hide ByteAt, Composite, Inv, HintSound, Fits, IsFullFrame;
    forall y, i | 0 <= y < shot.img.h && 0 <= i < 4 * shot.img.w
      ensures ByteAt(canvas.pix, 4 * canvas.w, y, i) == ByteAt(shot.img.pix, 4 * canvas.w, y, i)
    {
      PastedByte(l, d, shot, hint, hinted, m, c, base, y, i);
    }
    SameBytes(canvas, shot.img);
  }

  lemma NothingPasted(base: Flat, canvas: Flat)
    requires base.Valid() && IsComposite(base, canvas, [], [])
    ensures canvas == base
  {
    SameBytes(canvas, base);
  }

  /** An accepted reply leaves the client with the server's last image. */
  lemma AcceptedKeepsInv(l: Link, a: Action, l': Link)
    requires Inv(l) && a.Exchange? && Step(l, a, l') && l'.up && a.resp.Good?
    ensures Inv(l') && l'.srv.last.Some? && l'.srv.lastDisp == a.d && l'.cl == Client(Some(l'.srv.last.value.img), a.d)
  {
    hide DecodeCapResp, EncodeCapOK, EncodeErr, IsComposite;
    ReplyDecodes(l, a.d, a.res, a.m, l'.srv, a.resp);
    var c := a.resp.c;
    var base: Flat :| base.Valid() && base.w == c.w && base.h == c.h && (Fits(l.cl, a.d, c) ==> base == l.cl.canvas.value)
                      && IsComposite(base, l'.cl.canvas.value, c.rects, c.pix);
    if a.res.Image? {
      PastedIsShot(l, a.d, a.res.shot, a.res.hint, a.res.hinted, a.m, c, base, l'.cl.canvas.value);
    } else {
      assert Has(c.flags, UNCHANGED);
      NothingPasted(base, l'.cl.canvas.value);
    }
  }

  /** A refusal is an error for the caller and changes nothing at the server. The link
      survives it exactly when it has a text; one without reads as an empty success, which no
      client can be in step with, so the client drops the link and the helper. */
  lemma RefusedKeepsInv(l: Link, a: Action, l': Link)
    requires Inv(l) && a.Exchange? && Step(l, a, l') && a.resp.Refused?
    ensures a.r == Error && l'.srv == l.srv && Inv(l')
    ensures l'.up <==> a.resp.msg != []
    ensures l'.cl == if l'.up then l.cl else Client(None, -1)
  {
    hide DecodeCapResp, EncodeCapOK, EncodeErr, IsComposite;
    ReplyDecodes(l, a.d, a.res, a.m, l'.srv, a.resp);
  }

  lemma DroppedHasNoCanvas(l: Link, a: Action, l': Link)
    requires Inv(l) && a.Exchange? && Step(l, a, l') && !l'.up
    ensures Inv(l') && l'.cl == Client(None, -1) && a.r == Error
  {
    hide DecodeCapResp, EncodeCapOK, EncodeErr;
  }

  lemma StepKeepsInv(l: Link, a: Action, l': Link)
    requires Inv(l) && Step(l, a, l')
    ensures Inv(l')
  {
    if a.Exchange? {
      if !l'.up {
        DroppedHasNoCanvas(l, a, l');
      } else if a.resp.Good? {
        AcceptedKeepsInv(l, a, l');
      } else {
        RefusedKeepsInv(l, a, l');
      }
    }
  }

  ghost predicate IsRun(ls: seq<Link>, acts: seq<Action>) {
    && |ls| == |acts| + 1 && ls[0] == Link(false, Server(None, -1), Client(None, -1))
    && forall i :: 0 <= i < |acts| ==> Step(ls[i], acts[i], ls[i + 1])
  }

  /** Across errors, repeats, display switches, size changes and reconnects. */
  lemma {:induction false} RunKeepsInv(ls: seq<Link>, acts: seq<Action>, n: nat)
    requires IsRun(ls, acts) && n <= |acts|
    ensures Inv(ls[n])
  {
    if n > 0 {
      RunKeepsInv(ls, acts, n - 1);
      StepKeepsInv(ls[n - 1], acts[n - 1], ls[n]);
    }
  }

  /** Every frame the client returns is the server's last frame for that display; a hint
      it passes on covers every change of the canvas, and "unchanged" means the canvas
      stayed as it was. */
  lemma ReturnedFramesAreTrue(ls: seq<Link>, acts: seq<Action>, n: nat)
    requires IsRun(ls, acts) && n < |acts| && acts[n].Exchange?
    ensures var a, l, l' := acts[n], ls[n], ls[n + 1];
            a.r != Error ==>
              && l'.srv.last.Some? && l'.srv.lastDisp == a.d
              && match a.r
                 case Whole(img) => img == l'.srv.last.value.img
                 case Hinted(img, rects) =>
                   && img == l'.srv.last.value.img && l.cl.canvas.Some? && l.cl.disp == a.d
                   && l.cl.canvas.value.w == img.w && l.cl.canvas.value.h == img.h
                   && forall y, i :: 0 <= y < img.h && 0 <= i < 4 * img.w && !SameByte(img, l.cl.canvas.value, y, i) ==>
                                       exists k :: 0 <= k < |rects| && BytesIn(rects[k], y, i)
                 case Unchanged => l'.cl == l.cl && l.cl.canvas == Some(l'.srv.last.value.img)
                 case Error => true
  {
    var a, l, l' := acts[n], ls[n], ls[n + 1];
    RunKeepsInv(ls, acts, n);
    assert Step(l, a, l');
    if !l'.up {
      DroppedHasNoCanvas(l, a, l');
    } else if a.resp.Refused? {
      RefusedKeepsInv(l, a, l');
    } else {
      AcceptedKeepsInv(l, a, l');
      AcceptedResult(l, a, l');
    }
  }

  lemma AcceptedResult(l: Link, a: Action, l': Link)
    requires Inv(l) && a.Exchange? && Step(l, a, l') && l'.up && a.resp.Good?
    requires l'.cl.canvas.Some?
    ensures a.r.Whole? || a.r.Hinted? || a.r.Unchanged?
    ensures a.r.Whole? ==> a.r.img == l'.cl.canvas.value
    ensures a.r.Unchanged? ==> l.cl.canvas.Some? && l.cl.disp == a.d && l'.cl.canvas == l.cl.canvas
    ensures a.r.Hinted? ==> a.r.img == l'.cl.canvas.value && l.cl.canvas.Some? && l.cl.disp == a.d
                            && l.cl.canvas.value.w == a.r.img.w && l.cl.canvas.value.h == a.r.img.h
                            && forall y, i :: 0 <= y < a.r.img.h && 0 <= i < 4 * a.r.img.w && !SameByte(a.r.img, l.cl.canvas.value, y, i) ==>
                                                exists k :: 0 <= k < |a.r.rects| && BytesIn(a.r.rects[k], y, i)
  {
    hide DecodeCapResp, EncodeCapOK, EncodeErr, IsComposite;
    ReplyDecodes(l, a.d, a.res, a.m, l'.srv, a.resp);
    var c := a.resp.c;
    var base: Flat :| base.Valid() && base.w == c.w && base.h == c.h && (Fits(l.cl, a.d, c) ==> base == l.cl.canvas.value)
                      && IsComposite(base, l'.cl.canvas.value, c.rects, c.pix);
    if a.r.Unchanged? {
      UnchangedHasNoRects(l.srv, l'.srv, a.d, a.res, a.m, a.resp);
      NothingPasted(base, l'.cl.canvas.value);
    } else if a.r.Hinted? {
      assert Fits(l.cl, a.d, c);
      CompositeSize(base, l'.cl.canvas.value, c.rects, c.pix);
      forall y, i | 0 <= y < a.r.img.h && 0 <= i < 4 * a.r.img.w && !SameByte(a.r.img, l.cl.canvas.value, y, i)
        ensures exists k :: 0 <= k < |a.r.rects| && BytesIn(a.r.rects[k], y, i)
      {
        ComposedOutside(base, l'.cl.canvas.value, c.rects, c.pix, y, i);
      }
    }
  }

  lemma CompositeSize(base: Flat, img: Flat, rects: seq<Rect>, pix: seq<seq<byte>>)
    requires IsComposite(base, img, rects, pix)
    ensures img.w == base.w && img.h == base.h
  {
  }

  lemma UnchangedHasNoRects(s: Server, s': Server, d: int, res: Back, m: Meta, resp: Response)
    requires ServerStep(s, s', d, res, m, resp) && resp.Good? && Has(resp.c.flags, UNCHANGED)
    ensures resp.c.rects == [] && resp.c.pix == []
  {
  }

  lemma ComposedOutside(base: Flat, canvas: Flat, rects: seq<Rect>, pix: seq<seq<byte>>, y: int, i: int)
    requires IsComposite(base, canvas, rects, pix) && 0 <= y < canvas.h && 0 <= i < 4 * canvas.w
    ensures SameByte(canvas, base, y, i) || exists k :: 0 <= k < |rects| && BytesIn(rects[k], y, i)
  {
    CompositeTop(base, rects, pix, |rects|, y, i);
  }

  lemma {:induction false} CompositeTop(base: Flat, rects: seq<Rect>, pix: seq<seq<byte>>, n: nat, y: int, i: int)
    requires n <= |rects| == |pix|
    ensures Composite(base.pix, base.w, rects, pix, n, y, i) == ByteAt(base.pix, 4 * base.w, y, i) || exists k :: 0 <= k < n && BytesIn(rects[k], y, i)
  {
    if n > 0 {
      CompositeTop(base, rects, pix, n - 1, y, i);
    }
  }

  // ---- a call of the code is a run ----

  /** What the other side did in an attempt that was answered. */
  datatype Deal = Deal(srv: Server, res: Back, m: Meta, resp: Response)

  /** The answer of an attempt is the reply of a server that started from `srv`. */
  ghost predicate Honest(srv: Server, d: int, t: Try, deal: Deal) {
    Answer(t, CAP_RESP).Some? ==>
      && MetaOK(deal.m) && BackOK(srv, d, deal.res) && ServerStep(srv, deal.srv, d, deal.res, deal.m, deal.resp)
      && (deal.resp.Good? ==> |deal.resp.c.rects| == |deal.resp.c.pix|)
      && Answer(t, CAP_RESP) == Some(Encoded(deal.resp))
  }

  ghost predicate IsPath(ls: seq<Link>, acts: seq<Action>) {
    |ls| == |acts| + 1 && forall i :: 0 <= i < |acts| ==> Step(ls[i], acts[i], ls[i + 1])
  }

  lemma PathGrows(ls: seq<Link>, acts: seq<Action>, a: Action, l: Link)
    requires IsPath(ls, acts) && Step(ls[|acts|], a, l)
    ensures IsPath(ls + [l], acts + [a])
  {
    hide Step;
  }

  lemma {:induction false} PathKeepsInv(ls: seq<Link>, acts: seq<Action>, n: nat)
    requires IsPath(ls, acts) && Inv(ls[0]) && n <= |acts|
    ensures Inv(ls[n])
  {
    if n > 0 {
      PathKeepsInv(ls, acts, n - 1);
      StepKeepsInv(ls[n - 1], acts[n - 1], ls[n]);
    }
  }

  const DOWN: Link := Link(false, Server(None, -1), Client(None, -1))
  const NEW: Link := Link(true, Server(None, -1), Client(None, -1))

  /** The links a call goes through before its answer, if any, is read. */
  ghost function Approach(l: Link, tooEarly: bool, tries: seq<Try>): (p: (seq<Link>, seq<Action>))
    requires |tries| == 2
  {
    var kept := l.up && !tries[0].stale;
    var first := if kept then ([l], [])
                 else if l.up then (if Reached(true, tooEarly, tries[0]) then ([l, DOWN, NEW], [Lose, Connect]) else ([l, DOWN], [Lose]))
                 else if Reached(false, tooEarly, tries[0]) then ([l, NEW], [Connect]) else ([l], []);
    if !Reached(l.up, tooEarly, tries[0]) || Answer(tries[0], CAP_RESP).Some? then first
    else if tries[1].connection != Connected then (first.0 + [DOWN], first.1 + [Lose])
    else if Answer(tries[1], CAP_RESP).Some? then (first.0 + [DOWN, NEW], first.1 + [Lose, Connect])
    else (first.0 + [DOWN, NEW, DOWN], first.1 + [Lose, Connect, Lose])
  }

  lemma ApproachIsPath(l: Link, tooEarly: bool, tries: seq<Try>)
    requires |tries| == 2
    ensures IsPath(Approach(l, tooEarly, tries).0, Approach(l, tooEarly, tries).1) && Approach(l, tooEarly, tries).0[0] == l
  {
  }

  /** One CaptureHinted of the client against an honest other side: the machine has a run
      from the link as it was to the link as it is, ending in the exchange whose result the
      caller gets. */
  method CaptureHinted(client: HelperClient, ghost l: Link, d: int, now: int, tries: seq<Try>, ghost deals: seq<Deal>)
    returns (r: Result, ghost ls: seq<Link>, ghost acts: seq<Action>)
    requires client.Valid() && |tries| == 2 && |deals| == 2 && l.up == client.linkUp && l.cl == client.State()
    requires Honest(if l.up && !tries[0].stale then l.srv else Server(None, -1), d, tries[0], deals[0])
    requires Honest(Server(None, -1), d, tries[1], deals[1])
    modifies client, client.canvas
    ensures client.Valid() && IsPath(ls, acts) && ls[0] == l
    ensures ls[|acts|].up == client.linkUp && ls[|acts|].cl == client.State() && (Inv(l) ==> Inv(ls[|acts|]))
    ensures r != Error ==> acts != [] && acts[|acts| - 1].Exchange? && acts[|acts| - 1].d == d && acts[|acts| - 1].r == r
  {
    hide ServerStep, ClientStep, BackOK, DecodeCapResp, Encoded, WellFormed, Inv;
    ghost var tooEarly := client.hasErr && now < client.nextTry;
    ApproachIsPath(l, tooEarly, tries);
    ls, acts := Approach(l, tooEarly, tries).0, Approach(l, tooEarly, tries).1;
    var p := client.Call(now, CAP_RESP, tries);
    ghost var at := ls[|acts|];
    assert at.up == client.linkUp && at.cl == client.State();
    if p.None? {
      if Inv(l) {
        PathKeepsInv(ls, acts, |acts|);
      }
      return Error, ls, acts;
    }
    var dec := Decode(p.value);
    AcceptedIsWellFormed(p.value);
    r := client.Receive(d, dec);
    ghost var deal := if Answer(tries[0], CAP_RESP).Some? then deals[0] else deals[1];
    ghost var a := Exchange(d, deal.res, deal.m, deal.resp, r);
    ghost var after := Link(client.linkUp, deal.srv, client.State());
    assert Step(at, a, after);
    PathGrows(ls, acts, a, after);
    ls, acts := ls + [after], acts + [a];
    if Inv(l) {
      PathKeepsInv(ls, acts, |acts|);
    }
  }
}
