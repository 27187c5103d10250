/** H.264 byte streams: splitting Annex-B into NAL units and length-prefixing them. */
module AnnexB {
  import opened Raster

  const SPS: int := 7
  const PPS: int := 8
  const AUD: int := 9
  const END_SEQ: int := 10
  const END_STREAM: int := 11
  const FILLER: int := 12
  const IDR: int := 5
  const U32: int := 0x1_0000_0000

  type Nal = seq<byte>

  /** A start code begins at i. */
  predicate CodeAt(b: seq<byte>, i: int) {
    0 <= i && i + 2 < |b| && b[i] == 0 && b[i + 1] == 0 && b[i + 2] == 1
  }

  ghost predicate NoCode(b: seq<byte>) {
    forall i :: !CodeAt(b, i)
  }

  function Trim(n: Nal): Nal {
    if n != [] && n[|n| - 1] == 0 then Trim(n[..|n| - 1]) else n
  }

  function Piece(n: Nal): seq<Nal> {
    if Trim(n) == [] then [] else [Trim(n)]
  }

  /** Splits what is left, given the bytes of the current unit (None before the first
      start code). */
  ghost function Split(cur: Option<Nal>, rest: seq<byte>): seq<Nal>
    decreases |rest|
  {
    if |rest| < 3 then
      if cur.Some? then Piece(cur.value + rest) else []
    else if CodeAt(rest, 0) then
      (if cur.Some? then Piece(cur.value) else []) + Split(Some([]), rest[3..])
    else
      Split(if cur.Some? then Some(cur.value + [rest[0]]) else None, rest[1..])
  }

  lemma SplitEnds(cur: Option<Nal>, rest: seq<byte>)
    requires |rest| < 3
    ensures Split(cur, rest) == if cur.Some? then Piece(cur.value + rest) else []
  {
  }

  lemma SplitAtCode(cur: Option<Nal>, rest: seq<byte>, more: seq<byte>)
    requires rest == [0, 0, 1] + more
    ensures Split(cur, rest) == (if cur.Some? then Piece(cur.value) else []) + Split(Some([]), more)
  {
  }

  lemma SplitStep(cur: Option<Nal>, rest: seq<byte>)
    requires |rest| >= 3 && !CodeAt(rest, 0)
    ensures Split(cur, rest) == Split(if cur.Some? then Some(cur.value + [rest[0]]) else None, rest[1..])
  {
  }

  method AppendNAL(nals: seq<Nal>, n: Nal) returns (r: seq<Nal>)
    ensures r == nals + Piece(n)
  {
    var m := n;
    while |m| > 0 && m[|m| - 1] == 0
      invariant Trim(m) == Trim(n)
    {
      m := m[..|m| - 1];
    }
    r := if |m| == 0 then nals else nals + [m];
  }

  /** What the scan still has to add when it stands at i in a unit begun at start. */
  ghost function Rest(b: seq<byte>, start: int, i: nat): seq<Nal>
    requires start <= i <= |b|
  {
    Split(if start < 0 then None else Some(b[start..i]), b[i..])
  }

  lemma RestAtCode(b: seq<byte>, start: int, i: nat)
    requires start <= i && CodeAt(b, i)
    ensures Rest(b, start, i) == (if start < 0 then [] else Piece(b[start..i])) + Rest(b, i + 3, i + 3)
  {
    hide Split, Piece;
    assert b[i..] == [0, 0, 1] + b[i + 3..];
    SplitAtCode(if start < 0 then None else Some(b[start..i]), b[i..], b[i + 3..]);
    assert b[i + 3..i + 3] == [];
  }

  lemma RestStep(b: seq<byte>, start: int, i: nat)
    requires start <= i && i + 2 < |b| && !CodeAt(b, i)
    ensures Rest(b, start, i) == Rest(b, start, i + 1)
  {
    hide Split;
    SplitStep(if start < 0 then None else Some(b[start..i]), b[i..]);
    assert b[i..][1..] == b[i + 1..];
    assert start >= 0 ==> b[start..i] + [b[i]] == b[start..i + 1];
  }

  lemma RestEnds(b: seq<byte>, start: int, i: nat)
    requires start <= i <= |b| <= i + 2
    ensures Rest(b, start, i) == if start < 0 then [] else Piece(b[start..])
  {
    hide Split, Piece;
    SplitEnds(if start < 0 then None else Some(b[start..i]), b[i..]);
    assert start >= 0 ==> b[start..i] + b[i..] == b[start..];
  }

  lemma RestStarts(b: seq<byte>)
    ensures Rest(b, -1, 0) == Split(None, b)
  {
  }

  method SplitAnnexB(b: seq<byte>) returns (nals: seq<Nal>)
    ensures nals == Split(None, b)
  {
    hide Split, Piece, Rest;
    RestStarts(b);
    nals := [];
    var start, i := -1, 0;
    while i + 2 < |b|
      invariant 0 <= i <= |b| && -1 <= start <= i
      invariant Split(None, b) == nals + Rest(b, start, i)
    {
      if b[i] == 0 && b[i + 1] == 0 && b[i + 2] == 1 {
        RestAtCode(b, start, i);
        if start >= 0 {
          nals := AppendNAL(nals, b[start..i]);
        }
        i := i + 3;
        start := i;
        continue;
      }
      RestStep(b, start, i);
      i := i + 1;
    }
    RestEnds(b, start, i);
    if start >= 0 && start <= |b| {
      nals := AppendNAL(nals, b[start..]);
    }
  }

  // ---- split undoes join ----

  /** A unit as an encoder emits it: not empty, no start code inside, no trailing zero. */
  ghost predicate GoodNal(n: Nal) {
    n != [] && n[|n| - 1] != 0 && NoCode(n)
  }

  /** A unit with its 3- or 4-byte start code. */
  datatype Unit = Unit(long: bool, nal: Nal)

  function Code(long: bool): seq<byte> {
    if long then [0, 0, 0, 1] else [0, 0, 1]
  }

  function Join(us: seq<Unit>): seq<byte> {
    if us == [] then [] else Code(us[0].long) + us[0].nal + Join(us[1..])
  }

  function Nals(us: seq<Unit>): seq<Nal> {
    if us == [] then [] else [us[0].nal] + Nals(us[1..])
  }

  /** Bytes where no start code begins are collected into the current unit. */
  lemma {:induction false} Walk(cur: Nal, n: Nal, rest: seq<byte>)
    requires forall i :: 0 <= i < |n| ==> !CodeAt(n + rest, i)
    requires rest == [] || |rest| >= 3
    ensures Split(Some(cur), n + rest) == Split(Some(cur + n), rest)
    decreases |n|
  {
    if n == [] {
      assert n + rest == rest && cur + n == cur;
    } else if |n + rest| < 3 {
      assert rest == [] && n + rest == n && (cur + n) + rest == cur + n;
    } else {
      var s := n + rest;
      assert s[1..] == n[1..] + rest;
      assert cur + n == (cur + [n[0]]) + n[1..];
      forall i | 0 <= i < |n[1..]|
        ensures !CodeAt(n[1..] + rest, i)
      {
        assert !CodeAt(s, i + 1);
      }
      assert !CodeAt(s, 0);
      SplitStep(Some(cur), s);
      Walk(cur + [n[0]], n[1..], rest);
    }
  }

  /** No start code begins inside a good unit, even running into the next start code. */
  lemma NoneBegins(n: Nal, rest: seq<byte>)
    requires GoodNal(n)
    ensures forall i :: 0 <= i < |n| ==> !CodeAt(n + rest, i)
  {
    forall i | 0 <= i < |n|
      ensures !CodeAt(n + rest, i)
    {
      assert !CodeAt(n, i);
    }
  }

  lemma TrimGood(n: Nal)
    requires n != [] && n[|n| - 1] != 0
    ensures Piece(n) == [n] && Piece(n + [0]) == [n]
  {
  }

  /** A unit is closed by the next start code, whichever its length. */
  lemma CodeCloses(n: Nal, long: bool, more: seq<byte>)
    requires GoodNal(n)
    ensures Split(Some(n), Code(long) + more) == [n] + Split(Some([]), more)
  {
    hide Split, Piece;
    TrimGood(n);
    var s := Code(long) + more;
    if long {
      assert s[1..] == [0, 0, 1] + more;
      SplitStep(Some(n), s);
      SplitAtCode(Some(n + [0]), s[1..], more);
    } else {
      SplitAtCode(Some(n), s, more);
    }
  }

  lemma FirstCode(long: bool, more: seq<byte>)
    ensures Split(None, Code(long) + more) == Split(Some([]), more)
  {
  }

  lemma GoodUnit(n: Nal)
    requires GoodNal(n)
    ensures n != [] && n[|n| - 1] != 0
  {
  }

  lemma {:induction false} JoinLength(us: seq<Unit>)
    ensures Join(us) == [] || |Join(us)| >= 3
  {
  }

  lemma JoinFront(us: seq<Unit>)
    requires us != []
    ensures Join(us) == Code(us[0].long) + (us[0].nal + Join(us[1..])) && Nals(us) == [us[0].nal] + Nals(us[1..])
  {
  }

  lemma {:induction false} SplitRest(n: Nal, us: seq<Unit>)
    requires GoodNal(n) && forall k :: 0 <= k < |us| ==> GoodNal(us[k].nal)
    ensures Split(Some([]), n + Join(us)) == [n] + Nals(us)
    decreases |us|
  {
    JoinLength(us);
    hide Split, Code, GoodNal;
    GoodUnit(n);
    NoneBegins(n, Join(us));
    Walk([], n, Join(us));
    assert [] + n == n;
    if us == [] {
      TrimGood(n);
      assert n + [] == n;
      SplitEnds(Some(n), []);
    } else {
      JoinFront(us);
      CodeCloses(n, us[0].long, us[0].nal + Join(us[1..]));
      SplitRest(us[0].nal, us[1..]);
    }
  }

  /** Splitting a joined stream gives the units back, in order. */
  lemma SplitUndoesJoin(us: seq<Unit>)
    requires forall k :: 0 <= k < |us| ==> GoodNal(us[k].nal)
    ensures Split(None, Join(us)) == Nals(us)
  {
    if us != [] {
      hide Split, Join, Nals, Code, GoodNal;
      JoinFront(us);
      FirstCode(us[0].long, us[0].nal + Join(us[1..]));
      SplitRest(us[0].nal, us[1..]);
    }
  }

  // ---- any input ----

  lemma {:induction false} TrimPrefix(n: Nal)
    ensures Trim(n) <= n && (Trim(n) != [] ==> Trim(n)[|Trim(n)| - 1] != 0)
  {
    if n != [] && n[|n| - 1] == 0 {
      TrimPrefix(n[..|n| - 1]);
    }
  }

  lemma CleanPiece(n: Nal)
    requires NoCode(n)
    ensures forall k :: 0 <= k < |Piece(n)| ==> GoodNal(Piece(n)[k])
  {
    TrimPrefix(n);
    var t := Trim(n);
    forall i
      ensures !CodeAt(t, i)
    {
      assert !CodeAt(n, i);
    }
  }

  /** Whatever the input, every unit returned is good: not empty, no trailing zero, no
      start code inside. */
  lemma {:induction false} SplitIsClean(cur: Option<Nal>, rest: seq<byte>)
    requires cur.Some? ==> forall i :: 0 <= i < |cur.value| ==> !CodeAt(cur.value + rest, i)
    ensures forall k :: 0 <= k < |Split(cur, rest)| ==> GoodNal(Split(cur, rest)[k])
    decreases |rest|
  {
    if |rest| < 3 {
      if cur.Some? {
        assert NoCode(cur.value + rest) by {
          forall i | CodeAt(cur.value + rest, i)
            ensures false
          {
          }
        }
        CleanPiece(cur.value + rest);
      }
    } else if CodeAt(rest, 0) {
      SplitIsClean(Some([]), rest[3..]);
      if cur.Some? {
        forall i
          ensures !CodeAt(cur.value, i)
        {
          assert CodeAt(cur.value, i) ==> CodeAt(cur.value + rest, i);
        }
        CleanPiece(cur.value);
      }
    } else {
      if cur.Some? {
        var c := cur.value + [rest[0]];
        assert c + rest[1..] == cur.value + rest;
        assert CodeAt(cur.value + rest, |cur.value|) <==> CodeAt(rest, 0);
      }
      SplitIsClean(if cur.Some? then Some(cur.value + [rest[0]]) else None, rest[1..]);
    }
  }

  lemma SplitAnyInput(b: seq<byte>)
    ensures forall k :: 0 <= k < |Split(None, b)| ==> GoodNal(Split(None, b)[k])
  {
    SplitIsClean(None, b);
  }

  /** Splitting undoes joining exactly for the units an encoder may emit. */
  lemma SplitUndoesJoinExactly(us: seq<Unit>)
    ensures Split(None, Join(us)) == Nals(us) <==> forall k :: 0 <= k < |us| ==> GoodNal(us[k].nal)
  {
    hide Split, Join, GoodNal;
    NalsAre(us);
    SplitAnyInput(Join(us));
    if forall k :: 0 <= k < |us| ==> GoodNal(us[k].nal) {
      SplitUndoesJoin(us);
    }
  }

  // ---- access units ----

  datatype AU = AU(sps: Nal, pps: Nal, idr: bool, avcc: seq<byte>)

  function TypeOf(n: Nal): int {
    if n == [] then -1 else n[0] % 32
  }

  predicate Kept(n: Nal) {
    n != [] && TypeOf(n) !in {SPS, PPS, AUD, END_SEQ, END_STREAM, FILLER}
  }

  function BE32(v: int): (s: seq<byte>)
    ensures |s| == 4
  {
    [v / 256 / 256 / 256 % 256, v / 256 / 256 % 256, v / 256 % 256, v % 256]
  }

  function AppendAVCC(dst: seq<byte>, n: Nal): seq<byte> {
    dst + BE32(|n|) + n
  }

  function KeptNals(ns: seq<Nal>): seq<Nal> {
    if ns == [] then [] else KeptNals(ns[..|ns| - 1]) + if Kept(ns[|ns| - 1]) then [ns[|ns| - 1]] else []
  }

  function Avcc(ns: seq<Nal>): seq<byte> {
    if ns == [] then [] else AppendAVCC(Avcc(ns[..|ns| - 1]), ns[|ns| - 1])
  }

  /** The last unit of a type, or nothing. */
  ghost predicate LastOf(ns: seq<Nal>, t: int, n: Nal) {
    if n == [] then forall k :: 0 <= k < |ns| ==> TypeOf(ns[k]) != t
    else exists k :: 0 <= k < |ns| && ns[k] == n && TypeOf(n) == t && forall m :: k < m < |ns| ==> TypeOf(ns[m]) != t
  }

  lemma KeptAppend(ns: seq<Nal>, n: Nal)
    ensures KeptNals(ns + [n]) == if Kept(n) then KeptNals(ns) + [n] else KeptNals(ns)
  {
  }

  lemma AvccAppend(ns: seq<Nal>, n: Nal)
    ensures Avcc(ns + [n]) == AppendAVCC(Avcc(ns), n)
  {
  }

  method ParseAnnexBAU(b: seq<byte>) returns (au: AU)
    ensures au.avcc == Avcc(KeptNals(Split(None, b)))
    ensures LastOf(Split(None, b), SPS, au.sps) && LastOf(Split(None, b), PPS, au.pps)
    ensures au.idr <==> exists k :: 0 <= k < |Split(None, b)| && TypeOf(Split(None, b)[k]) == IDR
  {
    hide TypeOf, Kept, KeptNals, Avcc, AppendAVCC, Split, LastOf;
    var ns := SplitAnnexB(b);
    SplitAnyInput(b);
    NothingYet();
    au := AU([], [], false, []);
    var k := 0;
    while k < |ns|
      invariant 0 <= k <= |ns|
      invariant au.avcc == Avcc(KeptNals(ns[..k]))
      invariant LastOf(ns[..k], SPS, au.sps) && LastOf(ns[..k], PPS, au.pps)
      invariant au.idr <==> exists m :: 0 <= m < k && TypeOf(ns[m]) == IDR
    {
      var n := ns[k];
      var t := n[0] % 32;
      TypeIs(n);
      assert ns[..k + 1] == ns[..k] + [n];
      KeptAppend(ns[..k], n);
      AvccAppend(KeptNals(ns[..k]), n);
      LastGrows(ns[..k], n, SPS, au.sps);
      LastGrows(ns[..k], n, PPS, au.pps);
      if t == SPS {
        au := au.(sps := n);
      } else if t == PPS {
        au := au.(pps := n);
      } else if t == AUD || t == FILLER || t == END_SEQ || t == END_STREAM {
      } else if t == IDR {
        au := au.(idr := true, avcc := AppendAVCC(au.avcc, n));
      } else {
        au := au.(avcc := AppendAVCC(au.avcc, n));
      }
      k := k + 1;
    }
    assert ns[..k] == ns;
  }

  lemma TypeIs(n: Nal)
    requires n != []
    ensures TypeOf(n) == n[0] % 32 && (Kept(n) <==> n[0] % 32 !in {SPS, PPS, AUD, END_SEQ, END_STREAM, FILLER})
  {
  }

  lemma NothingYet()
    ensures Avcc(KeptNals([])) == [] && LastOf([], SPS, []) && LastOf([], PPS, [])
  {
  }

  lemma LastGrows(ns: seq<Nal>, n: Nal, t: int, last: Nal)
    requires n != [] && LastOf(ns, t, last)
    ensures LastOf(ns + [n], t, if TypeOf(n) == t then n else last)
  {
    var r := ns + [n];
    assert r[|ns|] == n;
    if TypeOf(n) != t && last != [] {
      var k :| 0 <= k < |ns| && ns[k] == last && TypeOf(last) == t && forall m :: k < m < |ns| ==> TypeOf(ns[m]) != t;
      assert r[k] == last;
    }
  }

  function Num32(s: seq<byte>): int
    requires |s| >= 4
  {
    (((s[0] as int) * 256 + s[1] as int) * 256 + s[2] as int) * 256 + s[3] as int
  }

  /** Reading the length prefixes, front to back. */
  function ReadAVCC(s: seq<byte>): Option<seq<Nal>>
    decreases |s|
  {
    if s == [] then Some([])
    else if |s| < 4 then None
    else
      var n := Num32(s);
      if |s| < 4 + n then None else
      match ReadAVCC(s[4 + n..])
      case None => None
      case Some(ns) => Some([s[4..4 + n]] + ns)
  }

  lemma BE32Value(v: int)
    requires 0 <= v < U32
    ensures Num32(BE32(v)) == v
  {
  }

  lemma {:induction false} AvccFront(ns: seq<Nal>)
    requires |ns| > 0
    ensures Avcc(ns) == BE32(|ns[0]|) + ns[0] + Avcc(ns[1..])
  {
    hide BE32;
    if |ns| == 1 {
      assert ns[..0] == [] && ns[1..] == [];
    } else {
      var n := |ns| - 1;
      AvccFront(ns[..n]);
      assert ns[..n][1..] == ns[1..][..n - 1];
      assert ns[1..][n - 1] == ns[n];
    }
  }

  lemma ReadOne(n: Nal, rest: seq<byte>)
    requires |n| < U32
    ensures ReadAVCC(BE32(|n|) + n + rest)
            == match ReadAVCC(rest) case None => None case Some(ns) => Some([n] + ns)
  {
    BE32Value(|n|);
    var p, s := BE32(|n|), BE32(|n|) + n + rest;
    hide BE32;
    assert s[0] == p[0] && s[1] == p[1] && s[2] == p[2] && s[3] == p[3];
    assert s[4..4 + |n|] == n && s[4 + |n|..] == rest;
  }

  /** Reading back the length-prefixed form gives the units in order. */
  lemma {:induction false} AvccRoundTrip(ns: seq<Nal>)
    requires forall k :: 0 <= k < |ns| ==> |ns[k]| < U32
    ensures ReadAVCC(Avcc(ns)) == Some(ns)
    decreases |ns|
  {
    if ns != [] {
      AvccFront(ns);
      AvccRoundTrip(ns[1..]);
      ReadOne(ns[0], Avcc(ns[1..]));
      hide BE32, ReadAVCC, Avcc;
      assert [ns[0]] + ns[1..] == ns;
    }
  }

  /** End to end: the length prefixes of a parsed unit give back the kept NALs of the
      joined stream. */
  lemma ParsedStreamReadsBack(us: seq<Unit>)
    requires forall k :: 0 <= k < |us| ==> GoodNal(us[k].nal) && |us[k].nal| < U32
    ensures ReadAVCC(Avcc(KeptNals(Split(None, Join(us))))) == Some(KeptNals(Nals(us)))
  {
    SplitUndoesJoin(us);
    NalsAre(us);
    KeptAreShort(Nals(us));
    AvccRoundTrip(KeptNals(Nals(us)));
  }

  lemma {:induction false} NalsAre(us: seq<Unit>)
    ensures |Nals(us)| == |us| && forall k :: 0 <= k < |us| ==> Nals(us)[k] == us[k].nal
  {
    if us != [] {
      NalsAre(us[1..]);
    }
  }

  lemma {:induction false} KeptAreShort(ns: seq<Nal>)
    requires forall k :: 0 <= k < |ns| ==> ns[k] != [] && |ns[k]| < U32
    ensures forall k :: 0 <= k < |KeptNals(ns)| ==> |KeptNals(ns)[k]| < U32
  {
    if ns != [] {
      KeptAreShort(ns[..|ns| - 1]);
    }
  }
}
