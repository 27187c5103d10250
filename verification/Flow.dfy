/** Send credit per request: the table's locked sections as atomic steps of any number of
    goroutines, and the response stream that spends the credit. */
module Flow {
  import opened Geometry
  import opened Raster

  type Chan = nat

  /** The table. A request without an entry has the initial window. */
  datatype Table = Table(win: int, remaining: map<int, int>, waiters: map<int, Chan>) {
    function Rem(req: int): int {
      if req in remaining then remaining[req] else win
    }
  }

  /** The locked section of acquire: credit is taken, or the caller gets the channel to
      wait on (`fresh` is the name of a new one). */
  function TryAcquire(t: Table, req: int, n: int, fr: Chan): (Table, Option<Chan>) {
    if t.Rem(req) >= n then (t.(remaining := t.remaining[req := t.Rem(req) - n]), None)
    else if req in t.waiters then (t, Some(t.waiters[req]))
    else (t.(waiters := t.waiters[req := fr]), Some(fr))
  }

  function Waiter(t: Table, req: int): Option<Chan> {
    if req in t.waiters then Some(t.waiters[req]) else None
  }

  /** The locked section of add, and the channel to close afterwards. */
  function Add(t: Table, req: int, n: int): (Table, Option<Chan>) {
    if n <= 0 then (t, None)
    else (t.(remaining := t.remaining[req := t.Rem(req) + n], waiters := t.waiters - {req}), Waiter(t, req))
  }

  function Release(t: Table, req: int): (Table, Option<Chan>) {
    (t.(remaining := t.remaining - {req}, waiters := t.waiters - {req}), Waiter(t, req))
  }

  class WindowTable {
    const win: int
    var remaining: map<int, int>
    var waiters: map<int, Chan>
    var next: Chan

    ghost function State(): Table
      reads this
    {
      Table(win, remaining, waiters)
    }

    constructor (win: int)
      ensures State() == Table(win, map[], map[]) && next == 0
    {
      this.win, remaining, waiters, next := win, map[], map[], 0;
    }

    method AcquireSection(req: int, n: int) returns (wait: Option<Chan>)
      modifies this
      ensures (State(), wait) == TryAcquire(old(State()), req, n, old(next))
      ensures next == if wait == Some(old(next)) && req !in old(waiters) then old(next) + 1 else old(next)
    {
      var rem := if req in remaining then remaining[req] else win;
      if rem >= n {
        remaining := remaining[req := rem - n];
        return None;
      }
      if req !in waiters {
        waiters := waiters[req := next];
        next := next + 1;
      }
      return Some(waiters[req]);
    }

    method AddSection(req: int, n: int) returns (close: Option<Chan>)
      modifies this
      ensures (State(), close) == Add(old(State()), req, n) && next == old(next)
    {
      if n <= 0 {
        return None;
      }
      var rem := if req in remaining then remaining[req] else win;
      remaining := remaining[req := rem + n];
      close := if req in waiters then Some(waiters[req]) else None;
      waiters := waiters - {req};
    }

    method ReleaseSection(req: int) returns (close: Option<Chan>)
      modifies this
      ensures (State(), close) == Release(old(State()), req) && next == old(next)
    {
      remaining := remaining - {req};
      close := if req in waiters then Some(waiters[req]) else None;
      waiters := waiters - {req};
    }
  }

  // ---- goroutines ----

  datatype Proc = Idle | Trying(req: int, n: int) | Parked(req: int, n: int, ch: Chan) | Closing(ch: Chan)

  /** `acquired` and `added` count bytes per request since its last release. */
  datatype Sys = Sys(t: Table, procs: seq<Proc>, closed: set<Chan>, next: Chan, acquired: map<int, int>, added: map<int, int>)

  function Tally(m: map<int, int>, req: int): int {
    if req in m then m[req] else 0
  }

  datatype Action = Begin(req: int, n: int) | Lock | Wake | Cancel | Credit(req: int, n: int) | Finish(req: int) | Close

  function AfterSection(ch: Option<Chan>): Proc {
    if ch.Some? then Closing(ch.value) else Idle
  }

  /** Goroutine k takes one atomic step. Acquire is only ever called for a non-empty chunk. */
  ghost predicate Step(s: Sys, k: nat, a: Action, s': Sys) {
    && k < |s.procs|
    && match a
       case Begin(req, n) => s.procs[k].Idle? && n > 0 && s' == s.(procs := s.procs[k := Trying(req, n)])
       case Lock =>
         s.procs[k].Trying?
         && var p := s.procs[k];
            var (t, wait) := TryAcquire(s.t, p.req, p.n, s.next);
            s' == s.(t := t,
                     procs := s.procs[k := if wait.Some? then Parked(p.req, p.n, wait.value) else Idle],
                     next := if wait == Some(s.next) then s.next + 1 else s.next,
                     acquired := if wait.None? then s.acquired[p.req := Tally(s.acquired, p.req) + p.n] else s.acquired)
       case Wake => s.procs[k].Parked? && s.procs[k].ch in s.closed && s' == s.(procs := s.procs[k := Trying(s.procs[k].req, s.procs[k].n)])
       case Cancel => s.procs[k].Parked? && s' == s.(procs := s.procs[k := Idle])
       case Credit(req, n) =>
         s.procs[k].Idle?
         && var (t, ch) := Add(s.t, req, n);
            s' == s.(t := t, procs := s.procs[k := AfterSection(ch)], added := if n <= 0 then s.added else s.added[req := Tally(s.added, req) + n])
       case Finish(req) =>
         s.procs[k].Idle?
         && var (t, ch) := Release(s.t, req);
            s' == s.(t := t, procs := s.procs[k := AfterSection(ch)], acquired := s.acquired - {req}, added := s.added - {req})
       case Close => s.procs[k].Closing? && s' == s.(procs := s.procs[k := Idle], closed := s.closed + {s.procs[k].ch})
  }

  /** Credit is conserved and never negative. */
  ghost predicate Conserved(s: Sys) {
    forall req :: s.t.Rem(req) >= 0 && Tally(s.acquired, req) + s.t.Rem(req) == s.t.win + Tally(s.added, req)
  }

  ghost predicate AboutToClose(s: Sys, ch: Chan) {
    exists k :: 0 <= k < |s.procs| && s.procs[k] == Closing(ch)
  }

  /** Channels: one waiter entry each, not yet closed, nobody about to close them; every
      channel about to be closed is closed by one goroutine, once. */
  ghost predicate Channels(s: Sys) {
    && (forall req :: req in s.t.waiters ==> s.t.waiters[req] < s.next && s.t.waiters[req] !in s.closed && !AboutToClose(s, s.t.waiters[req]))
    && (forall a, b :: a in s.t.waiters && b in s.t.waiters && a != b ==> s.t.waiters[a] != s.t.waiters[b])
    && (forall k :: 0 <= k < |s.procs| && s.procs[k].Closing? ==> s.procs[k].ch < s.next && s.procs[k].ch !in s.closed)
    && (forall k, l :: 0 <= k < l < |s.procs| && s.procs[k].Closing? && s.procs[l].Closing? ==> s.procs[k].ch != s.procs[l].ch)
    && (forall ch :: ch in s.closed ==> ch < s.next)
  }

  /** A goroutine parked on a channel that is neither closed nor about to be is registered
      under its request and really lacks credit: no wake-up is lost. */
  ghost predicate NotLost(s: Sys, p: Proc) {
    && (p.Trying? || p.Parked? ==> p.n > 0)
    && (p.Parked? ==>
          p.ch < s.next
          && (p.ch in s.closed || AboutToClose(s, p.ch) || (p.req in s.t.waiters && s.t.waiters[p.req] == p.ch && s.t.Rem(p.req) < p.n)))
  }

  ghost predicate Inv(s: Sys) {
    && s.t.win > 0 && Conserved(s) && Channels(s)
    && forall k :: 0 <= k < |s.procs| ==> NotLost(s, s.procs[k])
  }

  ghost predicate Init(s: Sys) {
    && s.t.win > 0 && s.t.remaining == map[] && s.t.waiters == map[] && s.closed == {} && s.acquired == map[] && s.added == map[]
    && forall k :: 0 <= k < |s.procs| ==> s.procs[k] == Idle
  }

  lemma KeepsCredit(s: Sys, k: nat, a: Action, s': Sys)
    requires Inv(s) && Step(s, k, a, s')
    ensures s'.t.win > 0 && Conserved(s')
  {
    forall req
      ensures s'.t.Rem(req) >= 0 && Tally(s'.acquired, req) + s'.t.Rem(req) == s'.t.win + Tally(s'.added, req)
    {
      assert s.t.Rem(req) >= 0 && Tally(s.acquired, req) + s.t.Rem(req) == s.t.win + Tally(s.added, req);
    }
  }

  /** Other goroutines keep their state; goroutine k has its new one. */
  lemma ClosingAfter(s: Sys, k: nat, a: Action, s': Sys)
    requires Step(s, k, a, s')
    ensures |s'.procs| == |s.procs| && forall l :: 0 <= l < |s.procs| && l != k ==> s'.procs[l] == s.procs[l]
    ensures forall ch :: AboutToClose(s', ch) ==> AboutToClose(s, ch) || s'.procs[k] == Closing(ch)
    ensures forall ch :: AboutToClose(s, ch) && s.procs[k] != Closing(ch) ==> AboutToClose(s', ch)
  {
  }

  /** Acquire may register a new channel; nobody else knows it yet. */
  lemma LockKeepsChannels(s: Sys, k: nat, s': Sys)
    requires Inv(s) && Step(s, k, Lock, s')
    ensures Channels(s')
  {
    ClosingAfter(s, k, Lock, s');
    hide Conserved, NotLost;
  }

  /** Add and release unregister the channel they are going to close. */
  lemma SectionKeepsChannels(s: Sys, k: nat, a: Action, s': Sys)
    requires Inv(s) && (a.Credit? || a.Finish?) && Step(s, k, a, s')
    ensures Channels(s')
  {
    ClosingAfter(s, k, a, s');
    hide Conserved, NotLost;
  }

  lemma CloseKeepsChannels(s: Sys, k: nat, s': Sys)
    requires Inv(s) && Step(s, k, Close, s')
    ensures Channels(s')
  {
    ClosingAfter(s, k, Close, s');
    NoOtherCloser(s, k);
    hide Conserved, NotLost;
  }

  lemma KeepsChannels(s: Sys, k: nat, a: Action, s': Sys)
    requires Inv(s) && Step(s, k, a, s')
    ensures Channels(s')
  {
    match a
    case Lock => LockKeepsChannels(s, k, s');
    case Credit(_, _) => SectionKeepsChannels(s, k, a, s');
    case Finish(_) => SectionKeepsChannels(s, k, a, s');
    case Close => CloseKeepsChannels(s, k, s');
    case _ =>
      ClosingAfter(s, k, a, s');
      hide Conserved, NotLost;
  }

  lemma NoOtherCloser(s: Sys, k: nat)
    requires Channels(s) && k < |s.procs| && s.procs[k].Closing?
    ensures forall l :: 0 <= l < |s.procs| && l != k && s.procs[l].Closing? ==> s.procs[l].ch != s.procs[k].ch
    ensures AboutToClose(s, s.procs[k].ch)
  {
  }

  lemma OthersKeepWakeUps(s: Sys, k: nat, a: Action, s': Sys, l: nat)
    requires Inv(s) && Step(s, k, a, s') && l < |s.procs| && l != k
    ensures l < |s'.procs| && NotLost(s', s'.procs[l])
  {
    ClosingAfter(s, k, a, s');
    assert NotLost(s, s.procs[l]) && NotLost(s, s.procs[k]);
    var p := s.procs[l];
    if p.Parked? {
      if s.procs[k] == Closing(p.ch) {
        assert a.Close? && p.ch in s'.closed;
      } else if AboutToClose(s, p.ch) {
        assert AboutToClose(s', p.ch);
      } else if p.ch !in s.closed && s'.procs[k] == Closing(p.ch) {
        assert AboutToClose(s', p.ch);
      }
    }
  }

  /** The goroutine that just parked is registered and lacks credit. */
  lemma ParkedIsRegistered(s: Sys, k: nat, a: Action, s': Sys)
    requires Inv(s) && Step(s, k, a, s')
    ensures k < |s'.procs| && NotLost(s', s'.procs[k])
  {
    assert NotLost(s, s.procs[k]);
    assert a.Lock? <== s'.procs[k].Parked?;
  }

  lemma StepKeepsInv(s: Sys, k: nat, a: Action, s': Sys)
    requires Inv(s) && Step(s, k, a, s')
    ensures Inv(s')
  {
    KeepsCredit(s, k, a, s');
    KeepsChannels(s, k, a, s');
    forall l | 0 <= l < |s'.procs|
      ensures NotLost(s', s'.procs[l])
    {
      if l == k {
        ParkedIsRegistered(s, k, a, s');
      } else {
        ClosingAfter(s, k, a, s');
        OthersKeepWakeUps(s, k, a, s', l);
      }
    }
  }

  ghost predicate IsRun(ss: seq<Sys>, who: seq<nat>, acts: seq<Action>) {
    && |ss| == |acts| + 1 == |who| + 1 && Init(ss[0])
    && forall i :: 0 <= i < |acts| ==> Step(ss[i], who[i], acts[i], ss[i + 1])
  }

  /** Credit conservation, single closing and no lost wake-up in every reachable state. */
  lemma {:induction false} RunKeepsInv(ss: seq<Sys>, who: seq<nat>, acts: seq<Action>, n: nat)
    requires IsRun(ss, who, acts) && n <= |acts|
    ensures Inv(ss[n])
  {
    if n > 0 {
      RunKeepsInv(ss, who, acts, n - 1);
      StepKeepsInv(ss[n - 1], who[n - 1], acts[n - 1], ss[n]);
    }
  }

  /** Parked, its channel neither closed nor about to be closed: the goroutine is registered
      for the next credit and could not have gone on with the credit there is. */
  lemma NoLostWakeUp(ss: seq<Sys>, who: seq<nat>, acts: seq<Action>, n: nat, k: nat)
    requires IsRun(ss, who, acts) && n <= |acts| && k < |ss[n].procs| && ss[n].procs[k].Parked?
    requires ss[n].procs[k].ch !in ss[n].closed && !AboutToClose(ss[n], ss[n].procs[k].ch)
    ensures var p, t := ss[n].procs[k], ss[n].t;
            p.req in t.waiters && t.waiters[p.req] == p.ch && t.Rem(p.req) < p.n
  {
    RunKeepsInv(ss, who, acts, n);
    assert NotLost(ss[n], ss[n].procs[k]);
  }

  /** A request never holds more than its window and what was granted to it. */
  lemma NeverBeyondGrant(ss: seq<Sys>, who: seq<nat>, acts: seq<Action>, n: nat, req: int)
    requires IsRun(ss, who, acts) && n <= |acts|
    ensures Tally(ss[n].acquired, req) <= ss[n].t.win + Tally(ss[n].added, req)
  {
    RunKeepsInv(ss, who, acts, n);
  }

  // ---- the response stream ----

  /** What the stream does, in order. */
  datatype Event = Spend(n: int) | Data(seqNo: int, payload: seq<byte>) | End(seqNo: int) | TooLarge

  /** The body and how the reader hands it out: read k gives at most sizes(k) bytes, none
      without an error if sizes(k) is 0, and may report the end together with the last bytes;
      read failAt fails. `stall` counts down a row of empty reads: a reader that returns
      nothing for ever never lets the loop end. */
  datatype Source = Source(body: seq<byte>, sizes: nat -> nat, stall: nat -> nat, eager: nat -> bool, failAt: Option<nat>)

  ghost predicate SourceOK(src: Source) {
    forall k: nat :: src.sizes(k) == 0 ==> src.stall(k + 1) < src.stall(k)
  }

  ghost function Payloads(es: seq<Event>): seq<byte> {
    if es == [] then [] else Payloads(es[..|es| - 1]) + (if es[|es| - 1].Data? then es[|es| - 1].payload else [])
  }

  ghost function Spent(es: seq<Event>): int {
    if es == [] then 0 else Spent(es[..|es| - 1]) + (if es[|es| - 1].Spend? then es[|es| - 1].n else 0)
  }

  ghost function Frames(es: seq<Event>): nat {
    if es == [] then 0 else Frames(es[..|es| - 1]) + (if es[|es| - 1].Data? || es[|es| - 1].End? then 1 else 0)
  }

  /** Sequence numbers count the frames, and no frame is sent before its bytes were acquired. */
  ghost predicate EventOK(before: seq<Event>, e: Event, flow: bool) {
    match e
    case Data(n, p) => n == Frames(before) && (flow ==> |Payloads(before)| + |p| <= Spent(before))
    case End(n) => n == Frames(before)
    case Spend(n) => n >= 0
    case TooLarge => true
  }

  ghost predicate Running(es: seq<Event>) {
    forall i :: 0 <= i < |es| ==> !es[i].End? && !es[i].TooLarge?
  }

  /** Every event in order; nothing follows the end. */
  ghost predicate GoodStream(es: seq<Event>, flow: bool) {
    es != [] ==> Running(es[..|es| - 1]) && GoodStream(es[..|es| - 1], flow) && EventOK(es[..|es| - 1], es[|es| - 1], flow)
  }

  lemma EventAppend(es: seq<Event>, e: Event)
    ensures Payloads(es + [e]) == Payloads(es) + (if e.Data? then e.payload else [])
    ensures Spent(es + [e]) == Spent(es) + (if e.Spend? then e.n else 0)
    ensures Frames(es + [e]) == Frames(es) + (if e.Data? || e.End? then 1 else 0)
  {
  }

  lemma StreamAppend(es: seq<Event>, e: Event, flow: bool)
    requires GoodStream(es, flow) && Running(es) && EventOK(es, e, flow)
    ensures GoodStream(es + [e], flow)
    ensures !e.End? && !e.TooLarge? ==> Running(es + [e])
    ensures (es + [e])[|es|] == e
  {
  }

  /** Sends `part`, the body's bytes from pos on; `es'` is Running and accounts for it. */
  ghost predicate Accounts(es: seq<Event>, body: seq<byte>, pos: int, seqNo: nat, flow: bool) {
    && 0 <= pos <= |body| && Running(es) && GoodStream(es, flow)
    && Payloads(es) == body[..pos] && Frames(es) == seqNo && Spent(es) == if flow then pos else 0
  }

  /** Acquire and send one chunk. */
  method SendChunk(es: seq<Event>, body: seq<byte>, pos: nat, n: nat, seqNo: nat, flow: bool, canAcquire: bool, canSend: bool) returns (es': seq<Event>, ok: bool)
    requires Accounts(es, body, pos, seqNo, flow) && pos + n <= |body|
    ensures ok <==> canSend && (flow ==> canAcquire)
    ensures if ok then Accounts(es', body, pos + n, seqNo + 1, flow)
            else GoodStream(es', flow) && Running(es') && Payloads(es') == Payloads(es)
  {
    hide GoodStream, Payloads, Spent, Frames, Running;
    es' := es;
    if flow {
      if !canAcquire {
        return es', false;
      }
      StreamAppend(es', Spend(n), flow);
      EventAppend(es', Spend(n));
      es' := es' + [Spend(n)];
    }
    if !canSend {
      return es', false;
    }
    var part := body[pos..pos + n];
    StreamAppend(es', Data(seqNo, part), flow);
    EventAppend(es', Data(seqNo, part));
    assert body[..pos] + part == body[..pos + n];
    return es' + [Data(seqNo, part)], true;
  }

  /** The read/acquire/send loop. Whatever fails, what was sent is a prefix of the body in
      consecutively numbered frames within the acquired credit; the end frame is sent only
      after the whole body, and a body over the limit is reported instead. */
  method StreamResponse(src: Source, flow: bool, chunk: int, maxBody: int, acquireOK: nat -> bool, sendOK: nat -> bool)
    returns (es: seq<Event>, ok: bool)
    requires SourceOK(src) && chunk > 0 && maxBody > 0
    ensures GoodStream(es, flow)
    ensures Payloads(es) <= src.body && |Payloads(es)| <= maxBody
    ensures !ok ==> Running(es)
    ensures ok ==> es != [] && (es[|es| - 1].End? || es[|es| - 1].TooLarge?)
    ensures ok ==> if es[|es| - 1].End? then Payloads(es) == src.body else |src.body| > maxBody
    ensures (forall k: nat :: acquireOK(k) && sendOK(k)) && src.failAt == None ==> ok
  {
    hide GoodStream, Payloads, Spent, Frames, Running;
    es, ok := [], false;
    NothingSent(src.body, flow);
    var pos, seqNo, k := 0, 0, 0;
    while true
      invariant 0 <= pos <= |src.body| && pos <= maxBody && 0 <= k && 0 <= seqNo
      invariant Accounts(es, src.body, pos, seqNo, flow) && !ok
      decreases |src.body| - pos, src.stall(k)
    {
      // one Read through the limited reader
      var n := Min(Min(src.sizes(k), chunk), Min(maxBody + 1 - pos, |src.body| - pos));
      var failed := src.failAt == Some(k);
      var eof := !failed && pos + n == |src.body| && (if n == 0 then src.sizes(k) > 0 else src.eager(k));
      k := k + 1;
      if n > 0 {
        if pos + n > maxBody {
          StreamAppend(es, TooLarge, flow);
          EventAppend(es, TooLarge);
          return es + [TooLarge], true;
        }
        var sent;
        es, sent := SendChunk(es, src.body, pos, n, seqNo, flow, acquireOK(seqNo), sendOK(seqNo));
        if !sent {
          return es, false;
        }
        seqNo, pos := seqNo + 1, pos + n;
      }
      if eof {
        break;
      }
      if failed {
        return es, false;
      }
    }
    assert src.body[..pos] == src.body;
    if !sendOK(seqNo) {
      return es, false;
    }
    StreamAppend(es, End(seqNo), flow);
    EventAppend(es, End(seqNo));
    es, ok := es + [End(seqNo)], true;
  }

  lemma NothingSent(body: seq<byte>, flow: bool)
    ensures Accounts([], body, 0, 0, flow)
  {
  }

  // ---- the stream and the credit table ----

  ghost function Total(ns: seq<int>): int {
    if ns == [] then 0 else Total(ns[..|ns| - 1]) + ns[|ns| - 1]
  }

  /** What the stream acquired, in order. */
  ghost function Spends(es: seq<Event>): seq<int> {
    if es == [] then [] else Spends(es[..|es| - 1]) + (if es[|es| - 1].Spend? then [es[|es| - 1].n] else [])
  }

  lemma TotalAppend(ns: seq<int>, n: int)
    ensures Total(ns + [n]) == Total(ns) + n
  {
    assert (ns + [n])[..|ns|] == ns;
  }

  lemma {:induction false} SpendsTotal(es: seq<Event>)
    ensures Total(Spends(es)) == Spent(es)
  {
    if es != [] {
      var e := es[|es| - 1];
      SpendsTotal(es[..|es| - 1]);
      if e.Spend? {
        TotalAppend(Spends(es[..|es| - 1]), e.n);
      } else {
        assert Spends(es[..|es| - 1]) + [] == Spends(es[..|es| - 1]);
      }
    }
  }

  /** No stream sends more than it acquired. */
  lemma {:induction false} PaidFor(es: seq<Event>)
    requires GoodStream(es, true)
    ensures |Payloads(es)| <= Spent(es)
  {
    if es != [] {
      PaidFor(es[..|es| - 1]);
    }
  }

  /** The amounts the table granted to a request since its last release, in order: the
      successful locked sections of acquire. */
  ghost function Granted(ss: seq<Sys>, who: seq<nat>, acts: seq<Action>, n: nat, req: int): seq<int>
    requires IsRun(ss, who, acts) && n <= |acts|
  {
    if n == 0 then [] else
    var before := Granted(ss, who, acts, n - 1, req);
    assert Step(ss[n - 1], who[n - 1], acts[n - 1], ss[n]);
    var p := ss[n - 1].procs[who[n - 1]];
    if acts[n - 1] == Finish(req) then []
    else if acts[n - 1] == Lock && p.req == req && ss[n].procs[who[n - 1]].Idle? then before + [p.n]
    else before
  }

  lemma AcquiredStep(s: Sys, k: nat, a: Action, s': Sys, req: int)
    requires Step(s, k, a, s')
    ensures k < |s.procs| && k < |s'.procs| && (a.Lock? ==> s.procs[k].Trying?)
    ensures Tally(s'.acquired, req) == if a == Finish(req) then 0
                                       else if a == Lock && s.procs[k].req == req && s'.procs[k].Idle? then Tally(s.acquired, req) + s.procs[k].n
                                       else Tally(s.acquired, req)
  {
  }

  lemma {:induction false} GrantedIsAcquired(ss: seq<Sys>, who: seq<nat>, acts: seq<Action>, n: nat, req: int)
    requires IsRun(ss, who, acts) && n <= |acts|
    ensures Total(Granted(ss, who, acts, n, req)) == Tally(ss[n].acquired, req)
  {
    if n > 0 {
      GrantedIsAcquired(ss, who, acts, n - 1, req);
      AcquiredStep(ss[n - 1], who[n - 1], acts[n - 1], ss[n], req);
      hide Step, Tally;
      var p := ss[n - 1].procs[who[n - 1]];
      if acts[n - 1] == Lock {
        TotalAppend(Granted(ss, who, acts, n - 1, req), p.n);
      }
    }
  }

  /** Acquire is only ever called for something. */
  lemma {:induction false} AsksArePositive(ss: seq<Sys>, who: seq<nat>, acts: seq<Action>, n: nat)
    requires IsRun(ss, who, acts) && n <= |acts|
    ensures AsksOK(ss[n])
  {
    if n > 0 {
      AsksArePositive(ss, who, acts, n - 1);
      AsksStayPositive(ss[n - 1], who[n - 1], acts[n - 1], ss[n]);
    }
  }

  lemma {:induction false} GrantsArePositive(ss: seq<Sys>, who: seq<nat>, acts: seq<Action>, n: nat, req: int)
    requires IsRun(ss, who, acts) && n <= |acts|
    ensures forall i :: 0 <= i < |Granted(ss, who, acts, n, req)| ==> Granted(ss, who, acts, n, req)[i] > 0
  {
    if n > 0 {
      GrantsArePositive(ss, who, acts, n - 1, req);
      AsksArePositive(ss, who, acts, n - 1);
      AcquiredStep(ss[n - 1], who[n - 1], acts[n - 1], ss[n], req);
      hide Step;
    }
  }

  lemma {:induction false} TotalPrefix(ns: seq<int>, n: nat)
    requires n <= |ns| && forall i :: 0 <= i < |ns| ==> ns[i] >= 0
    ensures Total(ns[..n]) <= Total(ns)
    decreases |ns|
  {
    if n == |ns| {
      assert ns[..n] == ns;
    } else {
      TotalPrefix(ns[..|ns| - 1], n);
      assert ns[..|ns| - 1][..n] == ns[..n];
    }
  }

  /** A response stream whose acquires are those the table granted to its request, perhaps
      all but the latest: at every moment of every run, the bytes it has sent are at most the
      window plus what the other side added. */
  lemma SentWithinGrant(ss: seq<Sys>, who: seq<nat>, acts: seq<Action>, n: nat, req: int, es: seq<Event>)
    requires IsRun(ss, who, acts) && n <= |acts| && GoodStream(es, true)
    requires Spends(es) <= Granted(ss, who, acts, n, req)
    ensures |Payloads(es)| <= ss[n].t.win + Tally(ss[n].added, req)
  {
    var all := Granted(ss, who, acts, n, req);
    PaidFor(es);
    SpendsTotal(es);
    GrantsArePositive(ss, who, acts, n, req);
    TotalPrefix(all, |Spends(es)|);
    GrantedIsAcquired(ss, who, acts, n, req);
    NeverBeyondGrant(ss, who, acts, n, req);
    hide Granted, Spends, Spent, Payloads, GoodStream, IsRun, Total, Tally;
    assert Spends(es) == all[..|Spends(es)|];
  }

  // ---- one machine of table and streams ----

  /** The table's machine, and what each request's stream has done since its last release. */
  datatype Joint = Joint(s: Sys, streams: map<int, seq<Event>>)

  datatype Move = Credits(a: Action) | Emit(req: int, e: Event)

  function Stream(j: Joint, req: int): seq<Event> {
    if req in j.streams then j.streams[req] else []
  }

  /** The request a successful locked section of acquire serves. */
  function Grantee(s: Sys, k: nat, a: Action, s': Sys): Option<int> {
    if k < |s.procs| && k < |s'.procs| && a == Lock && s.procs[k].Trying? && s'.procs[k].Idle? then Some(s.procs[k].req) else None
  }

  /** A grant is the stream's own acquire; frames go out when the stream may send them; a
      release ends the stream. Only a running stream acquires or sends. */
  ghost predicate JointStep(j: Joint, k: nat, m: Move, j': Joint) {
    match m
    case Credits(a) =>
      && Step(j.s, k, a, j'.s)
      && j'.streams == (match Grantee(j.s, k, a, j'.s)
                        case Some(req) => j.streams[req := Stream(j, req) + [Spend(j.s.procs[k].n)]]
                        case None => if a.Finish? then j.streams - {a.req} else j.streams)
      && (Grantee(j.s, k, a, j'.s).Some? ==> Running(Stream(j, j.s.procs[k].req)))
    case Emit(req, e) =>
      && !e.Spend? && Running(Stream(j, req)) && EventOK(Stream(j, req), e, true)
      && j' == j.(streams := j.streams[req := Stream(j, req) + [e]])
  }

  ghost predicate StreamOK(j: Joint, req: int) {
    GoodStream(Stream(j, req), true) && Spent(Stream(j, req)) == Tally(j.s.acquired, req)
  }

  ghost predicate AsksOK(s: Sys) {
    forall k :: 0 <= k < |s.procs| && (s.procs[k].Trying? || s.procs[k].Parked?) ==> s.procs[k].n > 0
  }

  ghost predicate JointInv(j: Joint) {
    Inv(j.s) && AsksOK(j.s) && forall req :: StreamOK(j, req)
  }

  lemma TableKeepsStreams(j: Joint, k: nat, a: Action, j': Joint, req: int)
    requires JointInv(j) && JointStep(j, k, Credits(a), j')
    ensures StreamOK(j', req)
  {
    AcquiredStep(j.s, k, a, j'.s, req);
    assert StreamOK(j, req);
    var g := Grantee(j.s, k, a, j'.s);
    if g == Some(req) {
      StreamAppend(Stream(j, req), Spend(j.s.procs[k].n), true);
      EventAppend(Stream(j, req), Spend(j.s.procs[k].n));
    }
    hide Step, Inv, GoodStream, Spent;
    if a == Finish(req) {
      assert Stream(j', req) == [];
      NoEvents();
    }
  }

  lemma NoEvents()
    ensures GoodStream([], true) && Spent([]) == 0
  {
  }

  lemma EmitKeepsStreams(j: Joint, k: nat, req: int, e: Event, j': Joint, r: int)
    requires JointInv(j) && JointStep(j, k, Emit(req, e), j')
    ensures StreamOK(j', r)
  {
    assert StreamOK(j, r);
    if r == req {
      StreamAppend(Stream(j, req), e, true);
      EventAppend(Stream(j, req), e);
    }
    hide Inv, GoodStream, Spent;
  }

  lemma JointStepKeepsInv(j: Joint, k: nat, m: Move, j': Joint)
    requires JointInv(j) && JointStep(j, k, m, j')
    ensures JointInv(j')
  {
    match m
    case Credits(a) =>
      StepKeepsInv(j.s, k, a, j'.s);
      AsksStayPositive(j.s, k, a, j'.s);
      hide Step, Inv, StreamOK, AsksOK;
      forall req
        ensures StreamOK(j', req)
      {
        TableKeepsStreams(j, k, a, j', req);
      }
    case Emit(req, e) =>
      hide Inv, StreamOK, AsksOK, EventOK, Running;
      forall r
        ensures StreamOK(j', r)
      {
        EmitKeepsStreams(j, k, req, e, j', r);
      }
  }

  lemma AsksStayPositive(s: Sys, k: nat, a: Action, s': Sys)
    requires Step(s, k, a, s') && AsksOK(s)
    ensures AsksOK(s')
  {
    hide TryAcquire, Add, Release;
  }

  ghost predicate IsJointRun(js: seq<Joint>, who: seq<nat>, moves: seq<Move>) {
    && |js| == |moves| + 1 == |who| + 1 && Init(js[0].s) && js[0].streams == map[]
    && forall i :: 0 <= i < |moves| ==> JointStep(js[i], who[i], moves[i], js[i + 1])
  }

  lemma {:induction false} JointRunKeepsInv(js: seq<Joint>, who: seq<nat>, moves: seq<Move>, n: nat)
    requires IsJointRun(js, who, moves) && n <= |moves|
    ensures JointInv(js[n])
  {
    hide JointInv, JointStep;
    if n == 0 {
      JointStarts(js[0]);
    } else {
      JointRunKeepsInv(js, who, moves, n - 1);
      JointStepKeepsInv(js[n - 1], who[n - 1], moves[n - 1], js[n]);
    }
  }

  lemma JointStarts(j: Joint)
    requires Init(j.s) && j.streams == map[]
    ensures JointInv(j)
  {
    NoEvents();
    hide GoodStream, Spent;
  }

  /** In every reachable state, for every request: the bytes its stream has sent since its
      last release are at most the window plus what was added. */
  lemma StreamsStayWithinGrant(js: seq<Joint>, who: seq<nat>, moves: seq<Move>, n: nat, req: int)
    requires IsJointRun(js, who, moves) && n <= |moves|
    ensures |Payloads(Stream(js[n], req))| <= js[n].s.t.win + Tally(js[n].s.added, req)
  {
    JointRunKeepsInv(js, who, moves, n);
    var j := js[n];
    assert StreamOK(j, req);
    PaidFor(Stream(j, req));
    assert j.s.t.Rem(req) >= 0 && Tally(j.s.acquired, req) + j.s.t.Rem(req) == j.s.t.win + Tally(j.s.added, req);
  }

  /** Every event of a good stream is one the machine lets it make at that point: the
      response loop's events are moves of this machine. */
  lemma {:induction false} EventsAreMoves(es: seq<Event>, i: nat)
    requires GoodStream(es, true) && i < |es|
    ensures Running(es[..i]) && EventOK(es[..i], es[i], true) && GoodStream(es[..i], true)
  {
    var n := |es| - 1;
    if i < n {
      EventsAreMoves(es[..n], i);
      assert es[..n][..i] == es[..i];
    }
  }
}
