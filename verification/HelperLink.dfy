/** Screen-helper replication: the server sends changed rectangles, the client keeps a
    canvas; requests and replies go through the binary protocol. */
module HelperLink {
  import opened Geometry
  import opened Raster
  import opened HelperProto
  import opened HelperPixels

  const CAP_RESP: byte := 6
  const HINTED: byte := 1
  const UNCHANGED: byte := 2
  const DEGRADED: byte := 4

  /** A capture with the origin of its image rectangle. */
  datatype Shot = Shot(minX: int, minY: int, img: Flat) {
    function Full(): Rect {
      Rect(minX, minY, minX + img.w, minY + img.h)
    }
  }

  /** What the capture backend answers. */
  datatype Back = Failed(msg: seq<byte>) | NoImage(hinted: bool) | Image(shot: Shot, hint: seq<Rect>, hinted: bool)

  /** Display facts sent along with every frame. */
  datatype Meta = Meta(bounds: Rect, displays: int, via: seq<byte>)

  datatype Server = Server(last: Option<Shot>, lastDisp: int)

  datatype Response = Good(c: CapResp) | Refused(msg: seq<byte>)

  function Ascii(s: string): seq<byte> {
    seq(|s|, i requires 0 <= i < |s| => s[i] as int % 256)
  }

  /** The hint rectangles that meet the image, clipped to it. */
  function Clip(hint: seq<Rect>, full: Rect): seq<Rect> {
    if hint == [] then [] else
    var r := hint[|hint| - 1].Canon().Intersect(full);
    if r.Empty() then Clip(hint[..|hint| - 1], full) else Clip(hint[..|hint| - 1], full) + [r]
  }

  function Repeat(s: Server, m: Meta, flags: byte): CapResp
    requires s.last.Some?
  {
    CapResp(flags, m.bounds, m.displays, m.via, s.last.value.img.w, s.last.value.img.h, [], [])
  }

  /** The response carries these rectangles of the shot, relative to its origin. */
  ghost predicate Carries(c: CapResp, m: Meta, shot: Shot, rects: seq<Rect>, flags: byte) {
    && c.flags == flags && c.bounds == m.bounds && c.displays == m.displays && c.via == m.via
    && c.w == shot.img.w && c.h == shot.img.h && |c.rects| == |c.pix| == |rects|
    && forall k :: 0 <= k < |rects| ==> c.rects[k] == rects[k].Sub(shot.minX, shot.minY)
                                        && IsCopy(c.pix[k], shot.img.pix, 4 * shot.img.w, c.rects[k])
  }

  ghost predicate ServerStep(s: Server, s': Server, d: int, res: Back, m: Meta, resp: Response) {
    match res
    case Failed(msg) =>
      s' == s && resp == if s.last.Some? && s.lastDisp == d then Good(Repeat(s, m, 7)) else Refused(msg)
    case NoImage(hinted) =>
      s' == s && resp == if !hinted then Refused(Ascii("empty frame"))
                         else if s.last.None? || s.lastDisp != d then Refused(Ascii("no baseline frame"))
                         else Good(Repeat(s, m, 3))
    case Image(shot, hint, hinted) =>
      s' == Server(Some(shot), d) && resp.Good?
      && Carries(resp.c, m, shot, if hinted then Clip(hint, shot.Full()) else [shot.Full()], if hinted then HINTED else 0)
  }

  function Encoded(r: Response): seq<byte>
    requires r.Good? ==> |r.c.rects| == |r.c.pix|
  {
    match r
    case Good(c) => EncodeCapOK(c)
    case Refused(msg) => EncodeErr(msg)
  }

  ghost predicate ShotOK(shot: Shot) {
    shot.img.Valid()
  }

  lemma {:induction false} ClipInside(hint: seq<Rect>, full: Rect)
    ensures forall k :: 0 <= k < |Clip(hint, full)| ==>
                          var r := Clip(hint, full)[k]; full.x0 <= r.x0 < r.x1 <= full.x1 && full.y0 <= r.y0 < r.y1 <= full.y1
  {
    if hint != [] {
      ClipInside(hint[..|hint| - 1], full);
    }
  }

  lemma {:induction false} ClipCovers(hint: seq<Rect>, full: Rect, k: nat, x: int, y: int)
    requires k < |hint| && hint[k].Canon().Has(x, y) && full.Has(x, y)
    ensures InSome(Clip(hint, full), x, y)
  {
    var n := |hint| - 1;
    var r := hint[n].Canon().Intersect(full);
    var before := Clip(hint[..n], full);
    if k == n {
      assert (before + [r])[|before|].Has(x, y);
    } else {
      ClipCovers(hint[..n], full, k, x, y);
      var i :| 0 <= i < |before| && before[i].Has(x, y);
      assert (before + [r])[i].Has(x, y);
    }
  }

  class HelperServer {
    var last: Option<Shot>
    var lastDisp: int

    ghost function State(): Server
      reads this
    {
      Server(last, lastDisp)
    }

    constructor ()
      ensures State() == Server(None, -1)
    {
      last, lastDisp := None, -1;
    }

    /** One capture request: a failed backend is tried once more. */
    method Capture(d: int, first: Back, second: Back, m: Meta) returns (resp: Response)
      requires first.Image? ==> ShotOK(first.shot)
      requires second.Image? ==> ShotOK(second.shot)
      modifies this
      ensures ServerStep(old(State()), State(), d, if first.Failed? then second else first, m, resp)
    {
      var res := first;
      if res.Failed? {
        res := second;
      }
      if res.Failed? {
        if last.Some? && lastDisp == d {
          return Good(CapResp(HINTED + UNCHANGED + DEGRADED, m.bounds, m.displays, m.via, last.value.img.w, last.value.img.h, [], []));
        }
        return Refused(res.msg);
      }
      if res.NoImage? && res.hinted {
        if last.None? || lastDisp != d {
          return Refused(Ascii("no baseline frame"));
        }
        return Good(CapResp(HINTED + UNCHANGED, m.bounds, m.displays, m.via, last.value.img.w, last.value.img.h, [], []));
      }
      if res.NoImage? {
        return Refused(Ascii("empty frame"));
      }
      last, lastDisp := Some(res.shot), d;
      var full := res.shot.Full();
      var rects := [full];
      if res.hinted {
        rects := ClipLoop(res.hint, full);
        ClipInside(res.hint, full);
      }
      var c := CutOut(res.shot, rects, m, if res.hinted then HINTED else 0);
      resp := Good(c);
    }
  }

  method ClipLoop(hint: seq<Rect>, full: Rect) returns (rects: seq<Rect>)
    ensures rects == Clip(hint, full)
  {
    rects := [];
    var k := 0;
    while k < |hint|
      invariant 0 <= k <= |hint| && rects == Clip(hint[..k], full)
    {
      assert hint[..k + 1][..k] == hint[..k];
      var r := hint[k].Canon().Intersect(full);
      if !r.Empty() {
        rects := rects + [r];
      }
      k := k + 1;
    }
    assert hint[..k] == hint;
  }

  method CutOut(shot: Shot, rects: seq<Rect>, m: Meta, flags: byte) returns (c: CapResp)
    requires ShotOK(shot)
    requires forall k :: 0 <= k < |rects| ==> var r, f := rects[k], shot.Full(); f.x0 <= r.x0 <= r.x1 <= f.x1 && f.y0 <= r.y0 <= r.y1 <= f.y1
    ensures Carries(c, m, shot, rects, flags)
  {
    var rs: seq<Rect>, px: seq<seq<byte>> := [], [];
    var k := 0;
    while k < |rects|
      invariant 0 <= k <= |rects| && |rs| == |px| == k
      invariant forall i :: 0 <= i < k ==> rs[i] == rects[i].Sub(shot.minX, shot.minY) && IsCopy(px[i], shot.img.pix, 4 * shot.img.w, rs[i])
    {
      assert shot.img.h * (4 * shot.img.w) == |shot.img.pix|;
      MulMono(rects[k].y1 - shot.minY, shot.img.h, 4 * shot.img.w);
      var p := CopyRect(shot.img.pix, 4 * shot.img.w, shot.minX, shot.minY, rects[k]);
      rs, px := rs + [rects[k].Sub(shot.minX, shot.minY)], px + [p];
      k := k + 1;
    }
    c := CapResp(flags, m.bounds, m.displays, m.via, shot.img.w, shot.img.h, rs, px);
  }

  // ---- the client ----

  datatype Client = Client(canvas: Option<Flat>, disp: int)

  /** What CaptureHinted returns. */
  datatype Result = Error | Unchanged | Hinted(img: Flat, rects: seq<Rect>) | Whole(img: Flat)

  /** Byte b of row y after the first n rectangles have been pasted in order. */
  ghost function Composite(before: seq<byte>, w: int, rects: seq<Rect>, pix: seq<seq<byte>>, n: nat, y: int, b: int): byte
    requires n <= |rects| == |pix|
  {
    if n == 0 then ByteAt(before, 4 * w, y, b)
    else if BytesIn(rects[n - 1], y, b) then ByteAt(pix[n - 1], 4 * rects[n - 1].Dx(), y - rects[n - 1].y0, b - 4 * rects[n - 1].x0)
    else Composite(before, w, rects, pix, n - 1, y, b)
  }

  ghost predicate IsComposite(base: Flat, img: Flat, rects: seq<Rect>, pix: seq<seq<byte>>) {
    && |rects| == |pix| && img.Valid() && img.w == base.w && img.h == base.h
    && forall y, b :: 0 <= y < img.h && 0 <= b < 4 * img.w ==>
                        ByteAt(img.pix, 4 * img.w, y, b) == Composite(base.pix, img.w, rects, pix, |rects|, y, b)
  }

  method PasteAll(canvas: array<byte>, w: nat, h: nat, rects: seq<Rect>, pix: seq<seq<byte>>)
    requires canvas.Length == 4 * w * h && |rects| == |pix|
    requires forall k :: 0 <= k < |rects| ==> rects[k].Within(w, h) && |pix[k]| == rects[k].Dx() * rects[k].Dy() * 4
    modifies canvas
    ensures forall y, b :: 0 <= y < h && 0 <= b < 4 * w ==>
                             ByteAt(canvas[..], 4 * w, y, b) == Composite(old(canvas[..]), w, rects, pix, |rects|, y, b)
  {
    hide ByteAt;
    var i := 0;
    while i < |rects|
      invariant 0 <= i <= |rects|
      invariant forall y, b :: 0 <= y < h && 0 <= b < 4 * w ==> ByteAt(canvas[..], 4 * w, y, b) == Composite(old(canvas[..]), w, rects, pix, i, y, b)
    {
      PasteRect(canvas, w, h, rects[i], pix[i]);
      i := i + 1;
    }
  }

  function Has(flags: byte, bit: int): bool
    requires bit > 0
  {
    flags / bit % 2 == 1
  }

  /** A first frame must be one full, unhinted rectangle. */
  predicate IsFullFrame(c: CapResp) {
    !Has(c.flags, UNCHANGED) && !Has(c.flags, HINTED) && |c.rects| == 1 && c.rects[0] == Corners(0, 0, c.w, c.h)
  }

  predicate Fits(cl: Client, d: int, c: CapResp) {
    cl.canvas.Some? && cl.disp == d && cl.canvas.value.w == c.w && cl.canvas.value.h == c.h
  }

  /** Decoded reply as the client goes on with it; an error without a text reads as an
      empty success. */
  function Accepted(dec: Decoded): Option<CapResp> {
    match dec
    case Ok(c) => Some(c)
    case Remote(msg) => if msg == [] then Some(CapResp(0, Rect(0, 0, 0, 0), 0, [], 0, 0, [], [])) else None
    case Bad => None
  }

  /** One decoded reply at the client: new state, whether the link is dropped, result. */
  ghost predicate ClientStep(cl: Client, cl': Client, d: int, dec: Decoded, dropped: bool, r: Result) {
    match Accepted(dec)
    case None => r == Error && (dropped <==> dec.Bad?) && cl' == if dropped then Client(None, -1) else cl
    case Some(c) =>
      if !Fits(cl, d, c) && !IsFullFrame(c) then
        dropped && r == Error && cl' == Client(None, -1)
      else
        && !dropped && cl'.disp == d && cl'.canvas.Some? && c.w >= 0 && c.h >= 0
        && (exists base: Flat :: base.Valid() && base.w == c.w && base.h == c.h && (Fits(cl, d, c) ==> base == cl.canvas.value)
                                 && IsComposite(base, cl'.canvas.value, c.rects, c.pix))
        && r == if Has(c.flags, UNCHANGED) then Unchanged
                else if Has(c.flags, HINTED) then Hinted(cl'.canvas.value, c.rects)
                else Whole(cl'.canvas.value)
  }

  const BACKOFF_MIN: int := 1000 // milliseconds
  const BACKOFF_MAX: int := 30000
  const NO_USER_RETRY: int := 2000

  datatype Connection = Connected | NoUser | Broken

  /** What the outside does in one attempt of a call: is the helper's session stale, does
      a connect succeed, which frame (if any) comes back. */
  datatype Try = Try(stale: bool, connection: Connection, reply: Option<Frame>)

  /** Is there a link for the request: the old one, or a new one unless it is too early. */
  predicate Reached(linkUp: bool, tooEarly: bool, t: Try) {
    (linkUp && !t.stale) || (!tooEarly && t.connection == Connected)
  }

  function Answer(t: Try, want: byte): Option<seq<byte>> {
    if t.reply.Some? && t.reply.value.typ == want then Some(t.reply.value.payload) else None
  }

  /** What the client remembers of the displays; `at` is the time of the last full query. */
  datatype Info = Info(via: seq<byte>, degraded: bool, bounds: seq<Rect>, count: int, at: int)

  /** A usable reply refreshes the facts of its display; a new display count makes the next
      query fetch them all. */
  function Learned(i: Info, d: int, c: CapResp): Info {
    Info(c.via, Has(c.flags, DEGRADED), if 0 <= d < |i.bounds| then i.bounds[d := c.bounds] else i.bounds,
         c.displays, if c.displays != i.count then 0 else i.at)
  }

  function Refreshed(i: Info, d: int, dec: Decoded): Info {
    match Accepted(dec)
    case None => i
    case Some(c) => Learned(i, d, c)
  }

  /** An error without a text wipes the facts as an empty success would: no method, no
      displays, and the facts expire. */
  lemma EmptyTextForgets(i: Info, d: int)
    ensures var j := Refreshed(i, d, Remote([]));
            j.via == [] && !j.degraded && j.count == 0 && (i.count != 0 ==> j.at == 0)
  {
  }

  class HelperClient {
    var info: Info
    var canvas: array?<byte>
    var cw: nat
    var ch: nat
    var disp: int
    var linkUp: bool
    var hasErr: bool
    var nextTry: int
    var backoff: int
    ghost var session: nat // number of links made so far

    ghost predicate Valid()
      reads this
    {
      && (canvas != null ==> canvas.Length == 4 * cw * ch)
      && (!linkUp ==> canvas == null && disp == -1)
      && (linkUp ==> !hasErr)
      && (backoff == 0 || BACKOFF_MIN <= backoff <= BACKOFF_MAX)
    }

    ghost function State(): Client
      reads this, canvas
    {
      Client(if canvas == null then None else Some(Flat(cw, ch, canvas[..])), disp)
    }

    constructor ()
      ensures Valid() && State() == Client(None, -1) && !linkUp
    {
      canvas, cw, ch, disp, linkUp := null, 0, 0, -1, false;
      hasErr, nextTry, backoff, session := false, 0, 0, 0;
      info := Info([], false, [], 0, 0);
    }

    method Drop()
      requires Valid()
      modifies this`canvas, this`disp, this`linkUp
      ensures Valid() && State() == Client(None, -1) && !linkUp
    {
      linkUp, canvas, disp := false, null, -1;
    }

    /** After a failed connect or call: wait longer each time, between 1 s and 30 s. */
    method FailConnect(now: int, noUser: bool)
      requires Valid() && !linkUp
      modifies this`hasErr, this`nextTry, this`backoff
      ensures Valid() && hasErr && nextTry == now + backoff
      ensures backoff == if noUser then NO_USER_RETRY else Max(BACKOFF_MIN, Min(2 * old(backoff), BACKOFF_MAX))
    {
      hasErr := true;
      if noUser {
        backoff := NO_USER_RETRY;
      } else {
        backoff := backoff * 2;
        if backoff < BACKOFF_MIN {
          backoff := BACKOFF_MIN;
        } else if backoff > BACKOFF_MAX {
          backoff := BACKOFF_MAX;
        }
      }
      nextTry := now + backoff;
    }

    /** A live link, or none at all. The canvas is kept only if the link was kept. */
    method Ensure(now: int, t: Try) returns (ok: bool)
      requires Valid()
      modifies this
      ensures Valid() && ok == linkUp && info == old(info) && (canvas == null || canvas == old(canvas))
      ensures session == old(session) + if ok && !(old(linkUp) && !t.stale) then 1 else 0
      ensures if linkUp && session == old(session) then old(linkUp) && State() == old(State()) else State() == Client(None, -1)
      ensures ok == Reached(old(linkUp), old(hasErr) && now < old(nextTry), t)
      ensures !old(linkUp) && old(hasErr) && now < old(nextTry) ==> nextTry == old(nextTry)
    {
      if linkUp && t.stale {
        Drop();
      }
      if linkUp {
        return true;
      }
      if now < nextTry && hasErr {
        return false;
      }
      if t.connection != Connected {
        FailConnect(now, t.connection == NoUser);
        return false;
      }
      linkUp, hasErr, backoff := true, false, 0;
      session := session + 1;
      return true;
    }

    /** One request with one retry. A reply of the wanted type comes over a live link; the
        canvas survives exactly when the link it was built over is still the one in use. */
    method Call(now: int, want: byte, tries: seq<Try>) returns (r: Option<seq<byte>>)
      requires Valid() && |tries| == 2
      modifies this
      ensures Valid() && session >= old(session) && info == old(info) && (canvas == null || canvas == old(canvas))
      ensures r.Some? ==> (session == old(session) <==> old(linkUp) && !tries[0].stale && Answer(tries[0], want).Some?)
      ensures r == if !Reached(old(linkUp), old(hasErr) && now < old(nextTry), tries[0]) then None
                   else if Answer(tries[0], want).Some? then Answer(tries[0], want)
                   else if tries[1].connection == Connected then Answer(tries[1], want)
                   else None
      ensures r.Some? ==> linkUp
      ensures r.None? ==> !linkUp
      ensures if linkUp && session == old(session) then old(linkUp) && State() == old(State()) else State() == Client(None, -1)
    {
      var attempt := 0;
      while attempt < 2
        invariant 0 <= attempt <= 2 && Valid() && session >= old(session)
        invariant attempt == 0 ==> State() == old(State()) && linkUp == old(linkUp) && session == old(session)
        invariant info == old(info) && (canvas == null || canvas == old(canvas)) && (attempt == 1 && !(old(linkUp) && !tries[0].stale) ==> session > old(session))
        invariant attempt == 0 ==> hasErr == old(hasErr) && nextTry == old(nextTry)
        invariant attempt > 0 ==> !linkUp && !hasErr && State() == Client(None, -1)
        invariant attempt > 0 ==> Reached(old(linkUp), old(hasErr) && now < old(nextTry), tries[0]) && Answer(tries[0], want).None?
        invariant attempt > 1 ==> tries[1].connection == Connected && Answer(tries[1], want).None?
      {
        var ok := Ensure(now, tries[attempt]);
        if !ok {
          return None;
        }
        var reply := tries[attempt].reply;
        if reply.Some? && reply.value.typ == want {
          return Some(reply.value.payload);
        }
        Drop();
        attempt := attempt + 1;
      }
      FailConnect(now, false);
      return None;
    }

    method Learn(d: int, c: CapResp)
      modifies this`info
      ensures info == Learned(old(info), d, c)
    {
      info := info.(via := c.via, degraded := Has(c.flags, DEGRADED));
      if 0 <= d < |info.bounds| {
        info := info.(bounds := info.bounds[d := c.bounds]);
      }
      if c.displays != info.count {
        info := info.(at := 0);
      }
      info := info.(count := c.displays);
    }

    /** The part of CaptureHinted after the reply: the canvas is pasted in place, the
        caller gets a copy. */
    method Receive(d: int, dec: Decoded) returns (r: Result)
      requires Valid() && linkUp && (dec.Ok? ==> WellFormed(dec.c))
      modifies this`info, this`canvas, this`cw, this`ch, this`disp, this`linkUp, canvas
      ensures Valid()
      ensures ClientStep(old(State()), State(), d, dec, !linkUp, r)
      ensures info == Refreshed(old(info), d, dec)
    {
      var a := Accepted(dec);
      if a.None? {
        if dec.Bad? {
          Drop();
        }
        return Error;
      }
      var c := a.value;
      Learn(d, c);
      hide Learned;
      var same, hinted := Has(c.flags, UNCHANGED), Has(c.flags, HINTED);
      ghost var start := State();
      if canvas == null || disp != d || cw != c.w || ch != c.h {
        if same || hinted || |c.rects| != 1 || c.rects[0] != Corners(0, 0, c.w, c.h) {
          Drop();
          return Error;
        }
        canvas := new byte[4 * c.w * c.h](_ => 0);
        cw, ch, disp := c.w, c.h, d;
      }
      ghost var base := Flat(cw, ch, canvas[..]);
      PasteAll(canvas, cw, ch, c.rects, c.pix);
      var snap := Flat(cw, ch, canvas[..]);
      assert IsComposite(base, snap, c.rects, c.pix);
      return if same then Unchanged else if hinted then Hinted(snap, c.rects) else Whole(snap);
    }
  }
}
