/** The helper's binary protocol: little-endian fields, frames, and the capture response. */
module HelperProto {
  import opened Geometry
  import opened Raster

  const MAX_FRAME: int := 0x2000_0000
  const MAX_STR: int := 0x1_0000
  const MAX_RECTS: int := 4096
  const MAX_AREA: int := 0x1000_0000
  const U32: int := 0x1_0000_0000

  // ---- fields ----

  function LE(v: int, n: nat): (bs: seq<byte>)
    requires v >= 0
    ensures |bs| == n
  {
    if n == 0 then [] else [v % 256] + LE(v / 256, n - 1)
  }

  function UnLE(bs: seq<byte>): (v: int)
    ensures 0 <= v
  {
    if bs == [] then 0 else bs[0] + 256 * UnLE(bs[1..])
  }

  function Pow256(n: nat): int {
    if n == 0 then 1 else 256 * Pow256(n - 1)
  }

  lemma {:induction false} UnLEofLE(v: int, n: nat)
    requires 0 <= v < Pow256(n)
    ensures UnLE(LE(v, n)) == v
  {
    if n > 0 {
      UnLEofLE(v / 256, n - 1);
      assert LE(v, n)[1..] == LE(v / 256, n - 1);
    }
  }

  lemma {:induction false} UnLEBound(bs: seq<byte>)
    ensures UnLE(bs) < Pow256(|bs|)
  {
    if bs != [] {
      UnLEBound(bs[1..]);
    }
  }

  lemma Powers()
    ensures Pow256(1) == 256 && Pow256(2) == 0x1_0000 && Pow256(4) == U32
  {
  }

  function EncI32(v: int): seq<byte> {
    LE(v % U32, 4)
  }

  /** Texts that do not fit a 16-bit length are cut. */
  function Cut(s: seq<byte>): (t: seq<byte>)
    ensures |t| < MAX_STR && t <= s && (t == s <==> |s| < MAX_STR)
  {
    if |s| >= MAX_STR then s[..MAX_STR - 1] else s
  }

  function EncStr(s: seq<byte>): seq<byte> {
    LE(|Cut(s)|, 2) + Cut(s)
  }

  function EncRect(r: Rect): seq<byte> {
    EncI32(r.x0) + EncI32(r.y0) + EncI32(r.x1) + EncI32(r.y1)
  }

  /** State of the reader: what is left, and the error that sticks. */
  datatype Rd = Rd(b: seq<byte>, err: bool)

  function Take(r: Rd, n: int): (Rd, seq<byte>) {
    if r.err || n < 0 || |r.b| < n then (r.(err := true), []) else (Rd(r.b[n..], false), r.b[..n])
  }

  function UInt(r: Rd, n: nat): (Rd, int) {
    var (r', t) := Take(r, n);
    (r', if r'.err then 0 else UnLE(t))
  }

  function Int32(r: Rd): (Rd, int) {
    var (r', v) := UInt(r, 4);
    (r', if v >= U32 / 2 then v - U32 else v)
  }

  function Str(r: Rd): (Rd, seq<byte>) {
    var (r1, n) := UInt(r, 2);
    var (r2, t) := Take(r1, n);
    (r2, if r2.err then [] else t)
  }

  function RectOf(r: Rd): (Rd, Rect) {
    var (r1, a) := Int32(r);
    var (r2, b) := Int32(r1);
    var (r3, c) := Int32(r2);
    var (r4, d) := Int32(r3);
    (r4, Corners(a, b, c, d))
  }

  predicate IsI32(v: int) {
    -U32 / 2 <= v < U32 / 2
  }

  predicate IsI32Rect(r: Rect) {
    IsI32(r.x0) && IsI32(r.y0) && IsI32(r.x1) && IsI32(r.y1)
  }

  lemma TakePrefix(a: seq<byte>, rest: seq<byte>)
    ensures Take(Rd(a + rest, false), |a|) == (Rd(rest, false), a)
  {
  }

  lemma ReadUInt(v: int, n: nat, rest: seq<byte>)
    requires 0 <= v < Pow256(n)
    ensures UInt(Rd(LE(v, n) + rest, false), n) == (Rd(rest, false), v)
  {
  }

  lemma ReadI32(v: int, rest: seq<byte>)
    requires IsI32(v)
    ensures Int32(Rd(EncI32(v) + rest, false)) == (Rd(rest, false), v)
  {
    Powers();
    ReadUInt(v % U32, 4, rest);
  }

  lemma ReadStr(s: seq<byte>, rest: seq<byte>)
    ensures Str(Rd(EncStr(s) + rest, false)) == (Rd(rest, false), Cut(s))
  {
    Powers();
    var t := Cut(s);
    assert EncStr(s) + rest == LE(|t|, 2) + (t + rest);
    ReadUInt(|t|, 2, t + rest);
    TakePrefix(t, rest);
  }

  lemma ReadRect(r: Rect, rest: seq<byte>)
    requires IsI32Rect(r) && r.Canon() == r
    ensures RectOf(Rd(EncRect(r) + rest, false)) == (Rd(rest, false), r)
  {
    var d := EncI32(r.y1) + rest;
    var c := EncI32(r.x1) + d;
    var b := EncI32(r.y0) + c;
    assert EncRect(r) + rest == EncI32(r.x0) + b;
    ReadI32(r.x0, b);
    ReadI32(r.y0, c);
    ReadI32(r.x1, d);
    ReadI32(r.y1, rest);
  }

  // ---- frames ----

  datatype Frame = Frame(typ: byte, payload: seq<byte>)

  function WriteFrame(f: Frame): Option<seq<byte>> {
    if |f.payload| + 1 > MAX_FRAME then None else Some(LE(|f.payload| + 1, 4) + [f.typ] + f.payload)
  }

  /** The next frame of a stream and what follows it. */
  function ReadFrame(s: seq<byte>): Option<(Frame, seq<byte>)> {
    if |s| < 4 then None else
    var n := UnLE(s[..4]);
    if n < 1 || n > MAX_FRAME || |s| < 4 + n then None
    else Some((Frame(s[4], s[5..4 + n]), s[4 + n..]))
  }

  lemma FrameRoundTrip(f: Frame, rest: seq<byte>)
    requires |f.payload| + 1 <= MAX_FRAME
    ensures ReadFrame(WriteFrame(f).value + rest) == Some((f, rest))
  {
    Powers();
    var n := |f.payload| + 1;
    UnLEofLE(n, 4);
    var s := WriteFrame(f).value + rest;
    assert s[..4] == LE(n, 4);
    assert s[5..4 + n] == f.payload;
    assert s[4 + n..] == rest;
  }

  function Written(fs: seq<Frame>): seq<byte>
    requires forall k :: 0 <= k < |fs| ==> |fs[k].payload| + 1 <= MAX_FRAME
  {
    if fs == [] then [] else WriteFrame(fs[0]).value + Written(fs[1..])
  }

  function ReadFrames(s: seq<byte>, n: nat): Option<(seq<Frame>, seq<byte>)> {
    if n == 0 then Some(([], s)) else
    match ReadFrame(s)
    case None => None
    case Some((f, rest)) =>
      match ReadFrames(rest, n - 1)
      case None => None
      case Some((fs, end)) => Some(([f] + fs, end))
  }

  /** Reading back a concatenation of written frames gives the same frames. */
  lemma {:induction false} FramesRoundTrip(fs: seq<Frame>, rest: seq<byte>)
    requires forall k :: 0 <= k < |fs| ==> |fs[k].payload| + 1 <= MAX_FRAME
    ensures ReadFrames(Written(fs) + rest, |fs|) == Some((fs, rest))
  {
    hide ReadFrame, LE;
    if fs == [] {
      assert Written(fs) + rest == rest;
    } else {
      assert [fs[0]] + fs[1..] == fs;
      assert Written(fs) + rest == WriteFrame(fs[0]).value + (Written(fs[1..]) + rest);
      FrameRoundTrip(fs[0], Written(fs[1..]) + rest);
      FramesRoundTrip(fs[1..], rest);
    }
  }

  // ---- handshake ----

  function EncodeHello(token: seq<byte>, version: seq<byte>, pid: int): seq<byte>
    requires 0 <= pid < U32
  {
    EncStr(token) + EncStr(version) + LE(pid, 4)
  }

  function DecodeHello(p: seq<byte>): Option<(seq<byte>, seq<byte>, int)> {
    var (r1, token) := Str(Rd(p, false));
    var (r2, version) := Str(r1);
    var (r3, pid) := UInt(r2, 4);
    if r3.err then None else Some((token, version, pid))
  }

  /** Texts survive exactly when they are shorter than 2^16 bytes (Cut), the number always. */
  lemma HelloRoundTrip(token: seq<byte>, version: seq<byte>, pid: int)
    requires 0 <= pid < U32
    ensures DecodeHello(EncodeHello(token, version, pid)) == Some((Cut(token), Cut(version), pid))
  {
    Powers();
    assert EncodeHello(token, version, pid) == EncStr(token) + (EncStr(version) + (LE(pid, 4) + []));
    ReadStr(token, EncStr(version) + (LE(pid, 4) + []));
    ReadStr(version, LE(pid, 4) + []);
    ReadUInt(pid, 4, []);
  }

  // ---- capture response ----

  datatype CapResp = CapResp(flags: byte, bounds: Rect, displays: int, via: seq<byte>, w: int, h: int,
                             rects: seq<Rect>, pix: seq<seq<byte>>)

  function EncRects(rs: seq<Rect>, px: seq<seq<byte>>): seq<byte>
    requires |rs| == |px|
  {
    if rs == [] then [] else EncRect(rs[0]) + px[0] + EncRects(rs[1..], px[1..])
  }

  /** The fields of a response before the rectangles, and what follows them. */
  function HeadBytes(c: CapResp, rest: seq<byte>): seq<byte> {
    [c.flags] + (EncRect(c.bounds) + (LE(c.displays % 0x1_0000, 2) + (EncStr(c.via) + (EncI32(c.w) + (EncI32(c.h) + (LE(|c.rects| % U32, 4) + rest))))))
  }

  function EncodeCapOK(c: CapResp): seq<byte>
    requires |c.rects| == |c.pix|
  {
    [0] + HeadBytes(c, EncRects(c.rects, c.pix))
  }

  function EncodeErr(msg: seq<byte>): seq<byte> {
    [1] + EncStr(msg)
  }

  datatype Decoded = Ok(c: CapResp) | Remote(msg: seq<byte>) | Bad

  predicate RectOK(rc: Rect, w: int, h: int) {
    rc.Dx() >= 0 && rc.Dy() >= 0 && rc.Dx() * rc.Dy() <= w * h && rc.x0 >= 0 && rc.y0 >= 0 && rc.x1 <= w && rc.y1 <= h
  }

  /** One rectangle and its pixels. */
  function DecodeOne(r: Rd, w: int, h: int): Option<(Rd, Rect, seq<byte>)> {
    var (r1, rc) := RectOf(r);
    if r1.err || !RectOK(rc, w, h) then None else
    var (r2, px) := Take(r1, rc.Dx() * rc.Dy() * 4);
    if r2.err then None else Some((r2, rc, px))
  }

  function DecodeRects(r: Rd, n: nat, w: int, h: int): Option<(seq<Rect>, seq<seq<byte>>)>
    decreases n
  {
    if n == 0 then Some(([], [])) else
    match DecodeOne(r, w, h)
    case None => None
    case Some((r2, rc, px)) =>
      match DecodeRects(r2, n - 1, w, h)
      case None => None
      case Some((rs, ps)) => Some(([rc] + rs, [px] + ps))
  }

  /** Everything before the rectangle list. */
  datatype Head = Head(r: Rd, flags: int, bounds: Rect, displays: int, via: seq<byte>, w: int, h: int, n: int)

  function DecodeHead(r0: Rd): Head {
    var (r1, flags) := UInt(r0, 1);
    var (r2, bounds) := RectOf(r1);
    var (r3, displays) := UInt(r2, 2);
    var (r4, via) := Str(r3);
    var (r5, w) := Int32(r4);
    var (r6, h) := Int32(r5);
    var (r7, n) := UInt(r6, 4);
    Head(r7, flags, bounds, displays, via, w, h, n)
  }

  predicate HeadOK(d: Head) {
    !d.r.err && 0 <= d.n <= MAX_RECTS && d.w >= 0 && d.h >= 0 && d.w * d.h <= MAX_AREA
  }

  lemma HeadFlags(r: Rd)
    ensures 0 <= DecodeHead(r).flags < 256
  {
    Powers();
    var (r1, t) := Take(r, 1);
    if !r1.err {
      UnLEBound(t);
    }
  }

  function DecodeCapResp(p: seq<byte>): Decoded {
    var (r0, status) := UInt(Rd(p, false), 1);
    if status != 0 then
      var (r, msg) := Str(r0);
      if r.err then Bad else Remote(msg)
    else
      var d := DecodeHead(r0);
      HeadFlags(r0);
      if !HeadOK(d) then Bad else
      match DecodeRects(d.r, d.n, d.w, d.h)
      case None => Bad
      case Some((rs, ps)) => Ok(CapResp(d.flags, d.bounds, d.displays, d.via, d.w, d.h, rs, ps))
  }

  /** Ranges in which a response survives the wire. */
  ghost predicate InRange(c: CapResp) {
    && IsI32Rect(c.bounds) && c.bounds.Canon() == c.bounds && 0 <= c.displays < 0x1_0000 && |c.via| < MAX_STR
    && 0 <= c.w < U32 / 2 && 0 <= c.h < U32 / 2 && |c.rects| == |c.pix| && |c.rects| < U32
    && forall k :: 0 <= k < |c.rects| ==> c.rects[k].Within(c.w, c.h) && |c.pix[k]| == c.rects[k].Dx() * c.rects[k].Dy() * 4
  }

  /** What every accepted response looks like. */
  ghost predicate WellFormed(c: CapResp) {
    && c.w >= 0 && c.h >= 0 && c.w * c.h <= MAX_AREA && |c.rects| == |c.pix| && |c.rects| <= MAX_RECTS
    && forall k :: 0 <= k < |c.rects| ==> c.rects[k].Within(c.w, c.h) && |c.pix[k]| == c.rects[k].Dx() * c.rects[k].Dy() * 4
  }

  lemma AreaInside(r: Rect, w: int, h: int)
    requires r.Within(w, h)
    ensures 0 <= r.Dx() * r.Dy() <= w * h
  {
  }

  lemma {:induction false} RectsRoundTrip(rs: seq<Rect>, px: seq<seq<byte>>, w: int, h: int)
    requires |rs| == |px| && 0 <= w < U32 / 2 && 0 <= h < U32 / 2
    requires forall k :: 0 <= k < |rs| ==> rs[k].Within(w, h) && |px[k]| == rs[k].Dx() * rs[k].Dy() * 4
    ensures DecodeRects(Rd(EncRects(rs, px), false), |rs|, w, h) == Some((rs, px))
  {
    hide EncRect, RectOf;
    if rs != [] {
      var rest := EncRects(rs[1..], px[1..]);
      assert EncRects(rs, px) == EncRect(rs[0]) + (px[0] + rest);
      ReadRect(rs[0], px[0] + rest);
      AreaInside(rs[0], w, h);
      TakePrefix(px[0], rest);
      RectsRoundTrip(rs[1..], px[1..], w, h);
      assert [rs[0]] + rs[1..] == rs && [px[0]] + px[1..] == px;
    }
  }

  lemma HeadRoundTrip(c: CapResp, rest: seq<byte>)
    requires InRange(c)
    ensures DecodeHead(Rd(HeadBytes(c, rest), false))
            == Head(Rd(rest, false), c.flags, c.bounds, c.displays, c.via, c.w, c.h, |c.rects|)
  {
    Powers();
    OneByte(c.flags);
    hide LE, EncRect, EncStr, EncI32, RectOf, Str, Int32, UInt;
    var s7 := LE(|c.rects|, 4) + rest;
    var s6 := EncI32(c.h) + s7;
    var s5 := EncI32(c.w) + s6;
    var s4 := EncStr(c.via) + s5;
    var s3 := LE(c.displays, 2) + s4;
    ReadUInt(c.flags, 1, EncRect(c.bounds) + s3);
    ReadRect(c.bounds, s3);
    ReadUInt(c.displays, 2, s4);
    ReadStr(c.via, s5);
    ReadI32(c.w, s6);
    ReadI32(c.h, s7);
    ReadUInt(|c.rects|, 4, rest);
  }

  lemma OneByte(v: byte)
    ensures LE(v, 1) == [v]
  {
  }

  lemma DecodeOkBody(p: seq<byte>, r0: Rd)
    requires UInt(Rd(p, false), 1) == (r0, 0)
    ensures var d := DecodeHead(r0);
            && 0 <= d.flags < 256
            && DecodeCapResp(p) == if !HeadOK(d) then Bad else
                 match DecodeRects(d.r, d.n, d.w, d.h)
                 case None => Bad
                 case Some((rs, ps)) => Ok(CapResp(d.flags, d.bounds, d.displays, d.via, d.w, d.h, rs, ps))
  {
    HeadFlags(r0);
    hide UInt, Str, DecodeHead, DecodeRects;
  }

  lemma OkStatus(c: CapResp)
    requires InRange(c)
    ensures UInt(Rd(EncodeCapOK(c), false), 1) == (Rd(HeadBytes(c, EncRects(c.rects, c.pix)), false), 0)
  {
    Powers();
    OneByte(0);
    ReadUInt(0, 1, HeadBytes(c, EncRects(c.rects, c.pix)));
    hide InRange, LE, UInt, HeadBytes, EncRects;
  }

  lemma RectsSurvive(c: CapResp)
    requires InRange(c)
    ensures 0 <= c.w && 0 <= c.h && DecodeRects(Rd(EncRects(c.rects, c.pix), false), |c.rects|, c.w, c.h) == Some((c.rects, c.pix))
  {
    RectsRoundTrip(c.rects, c.pix, c.w, c.h);
  }

  /** The response survives the wire exactly when it is within the decoder's limits;
      beyond them it is refused, never altered. */
  lemma CapRoundTrip(c: CapResp)
    requires InRange(c)
    ensures DecodeCapResp(EncodeCapOK(c)) == if |c.rects| <= MAX_RECTS && c.w * c.h <= MAX_AREA then Ok(c) else Bad
  {
    assert |c.rects| == |c.pix|;
    ghost var small := |c.rects| <= MAX_RECTS && c.w * c.h <= MAX_AREA;
    var d := Head(Rd(EncRects(c.rects, c.pix), false), c.flags, c.bounds, c.displays, c.via, c.w, c.h, |c.rects|);
    assert HeadOK(d) <==> small;
    hide HeadOK, InRange, LE, UInt, EncodeCapOK, HeadBytes, DecodeHead, EncRects, DecodeRects, DecodeCapResp;
    var rest := EncRects(c.rects, c.pix);
    OkStatus(c);
    HeadRoundTrip(c, rest);
    RectsSurvive(c);
    DecodeOkBody(EncodeCapOK(c), Rd(HeadBytes(c, rest), false));
  }

  lemma ErrRoundTrip(msg: seq<byte>)
    ensures DecodeCapResp(EncodeErr(msg)) == Remote(Cut(msg))
  {
    Powers();
    OneByte(1);
    assert EncodeErr(msg) == LE(1, 1) + (EncStr(msg) + []);
    ReadUInt(1, 1, EncStr(msg) + []);
    ReadStr(msg, []);
  }

  lemma DecodedOne(r: Rd, w: int, h: int)
    ensures var d := DecodeOne(r, w, h);
            d.Some? ==> d.value.1.Within(w, h) && |d.value.2| == d.value.1.Dx() * d.value.1.Dy() * 4
  {
  }

  lemma {:induction false} DecodedRects(r: Rd, n: nat, w: int, h: int)
    ensures var d := DecodeRects(r, n, w, h);
            d.Some? ==> |d.value.0| == |d.value.1| == n
                        && forall k :: 0 <= k < n ==> d.value.0[k].Within(w, h) && |d.value.1[k]| == d.value.0[k].Dx() * d.value.0[k].Dy() * 4
    decreases n
  {
    hide DecodeOne;
    if n > 0 {
      DecodedOne(r, w, h);
      match DecodeOne(r, w, h)
      case None =>
      case Some((r2, _, _)) => DecodedRects(r2, n - 1, w, h);
    }
  }

  /** For every byte string: an accepted response has its rectangles inside the image and
      exactly four bytes per pixel of each. */
  lemma AcceptedIsWellFormed(p: seq<byte>)
    ensures DecodeCapResp(p).Ok? ==> WellFormed(DecodeCapResp(p).c)
  {
    hide DecodeHead, DecodeRects;
    var (r0, status) := UInt(Rd(p, false), 1);
    var d := DecodeHead(r0);
    if status == 0 && HeadOK(d) {
      DecodedRects(d.r, d.n, d.w, d.h);
    }
  }

  // ---- the reader object and the decoder's loop ----

  class RBuf {
    var b: seq<byte>
    var err: bool

    ghost function State(): Rd
      reads this
    {
      Rd(b, err)
    }

    constructor (p: seq<byte>)
      ensures State() == Rd(p, false)
    {
      b, err := p, false;
    }

    method Bytes(n: int) returns (t: seq<byte>)
      modifies this
      ensures (State(), t) == Take(old(State()), n)
    {
      if err || n < 0 || |b| < n {
        err := true;
        return [];
      }
      t := b[..n];
      b := b[n..];
    }

    method U(n: nat) returns (v: int)
      modifies this
      ensures (State(), v) == UInt(old(State()), n)
    {
      var t := Bytes(n);
      v := if err then 0 else UnLE(t);
    }

    method I32() returns (v: int)
      modifies this
      ensures (State(), v) == Int32(old(State()))
    {
      v := U(4);
      if v >= U32 / 2 {
        v := v - U32;
      }
    }

    method S() returns (t: seq<byte>)
      modifies this
      ensures (State(), t) == Str(old(State()))
    {
      var n := U(2);
      t := Bytes(n);
      if err {
        t := [];
      }
    }

    method R() returns (rc: Rect)
      modifies this
      ensures (State(), rc) == RectOf(old(State()))
    {
      var a := I32();
      var c := I32();
      var d := I32();
      var e := I32();
      rc := Corners(a, c, d, e);
    }
  }

  /** decodeCapResp as it runs: fields off the buffer, then the rectangle loop. */
  method Decode(p: seq<byte>) returns (d: Decoded)
    ensures d == DecodeCapResp(p)
  {
    hide DecodeRects, RectOf, Str, Int32, UInt;
    var r := new RBuf(p);
    var status := r.U(1);
    if status != 0 {
      var msg := r.S();
      return if r.err then Bad else Remote(msg);
    }
    HeadFlags(r.State());
    var flags := r.U(1);
    var bounds := r.R();
    var displays := r.U(2);
    var via := r.S();
    var w := r.I32();
    var h := r.I32();
    var n := r.U(4);
    if r.err || n < 0 || n > MAX_RECTS || w < 0 || h < 0 || w * h > MAX_AREA {
      return Bad;
    }
    var ok, rects, pix := DecodeLoop(r, n, w, h);
    d := if ok then Ok(CapResp(flags, bounds, displays, via, w, h, rects, pix)) else Bad;
  }

  method ReadOne(r: RBuf, w: int, h: int) returns (ok: bool, rc: Rect, px: seq<byte>)
    modifies r
    ensures DecodeOne(old(r.State()), w, h) == if ok then Some((r.State(), rc, px)) else None
  {
    hide RectOf, Take;
    px := [];
    rc := r.R();
    if r.err || rc.Dx() < 0 || rc.Dy() < 0 || rc.Dx() * rc.Dy() > w * h || rc.x0 < 0 || rc.y0 < 0 || rc.x1 > w || rc.y1 > h {
      return false, rc, px;
    }
    px := r.Bytes(rc.Dx() * rc.Dy() * 4);
    ok := !r.err;
  }

  method DecodeLoop(r: RBuf, n: nat, w: int, h: int) returns (ok: bool, rects: seq<Rect>, pix: seq<seq<byte>>)
    modifies r
    ensures match DecodeRects(old(r.State()), n, w, h)
            case None => !ok
            case Some((rs, ps)) => ok && rects == rs && pix == ps
  {
    hide DecodeOne;
    ghost var start := r.State();
    ok, rects, pix := true, [], [];
    ExtendNone(DecodeRects(start, n, w, h));
    var i := 0;
    while i < n
      invariant 0 <= i <= n && ok
      invariant DecodeRects(start, n, w, h) == Extend(rects, pix, DecodeRects(r.State(), n - i, w, h))
    {
      var rc, px;
      ok, rc, px := ReadOne(r, w, h);
      if !ok {
        return;
      }
      ExtendStep(rects, pix, rc, px, DecodeRects(r.State(), n - i - 1, w, h));
      rects, pix := rects + [rc], pix + [px];
      i := i + 1;
    }
    assert rects + [] == rects && pix + [] == pix;
  }

  lemma ExtendNone(more: Option<(seq<Rect>, seq<seq<byte>>)>)
    ensures Extend([], [], more) == more
  {
    if more.Some? {
      assert [] + more.value.0 == more.value.0 && [] + more.value.1 == more.value.1;
    }
  }

  /** Rectangles read so far in front of the rest. */
  ghost function Extend(rects: seq<Rect>, pix: seq<seq<byte>>, more: Option<(seq<Rect>, seq<seq<byte>>)>): Option<(seq<Rect>, seq<seq<byte>>)> {
    match more
    case None => None
    case Some((rs, ps)) => Some((rects + rs, pix + ps))
  }

  lemma ExtendStep(rects: seq<Rect>, pix: seq<seq<byte>>, rc: Rect, px: seq<byte>, more: Option<(seq<Rect>, seq<seq<byte>>)>)
    ensures Extend(rects + [rc], pix + [px], more) == Extend(rects, pix, Extend([rc], [px], more))
  {
    if more.Some? {
      assert (rects + [rc]) + more.value.0 == rects + ([rc] + more.value.0);
      assert (pix + [px]) + more.value.1 == pix + ([px] + more.value.1);
    }
  }
}
