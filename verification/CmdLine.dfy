/** Windows command lines: quoting arguments, and the parsing rules that undo it. */
module CmdLine {
  import opened Raster

  const SPACE: byte := 32
  const TAB: byte := 9
  const QUOTE: byte := 34
  const SLASH: byte := 92

  type Arg = seq<byte>

  function Rep(c: byte, n: nat): seq<byte> {
    seq(n, _ => c)
  }

  // ---- quoting ----

  predicate Needs(s: Arg) {
    SPACE in s || TAB in s || QUOTE in s
  }

  /** What the loop appends for s, having just seen `slashes` backslashes; at the end the
      pending backslashes are doubled. */
  function Body(s: Arg, slashes: nat): seq<byte>
    decreases |s|
  {
    if s == [] then Rep(SLASH, slashes)
    else if s[0] == SLASH then [SLASH] + Body(s[1..], slashes + 1)
    else if s[0] == QUOTE then Rep(SLASH, slashes) + [SLASH, QUOTE] + Body(s[1..], 0)
    else [s[0]] + Body(s[1..], 0)
  }

  function Escaped(s: Arg): seq<byte> {
    if s == [] then [QUOTE, QUOTE]
    else if !Needs(s) then s
    else [QUOTE] + Body(s, 0) + [QUOTE]
  }

  function Joined(args: seq<Arg>): seq<byte> {
    if args == [] then []
    else if |args| == 1 then Escaped(args[0])
    else Escaped(args[0]) + [SPACE] + Joined(args[1..])
  }

  method AppendSlashes(b: seq<byte>, n: nat) returns (r: seq<byte>)
    ensures r == b + Rep(SLASH, n)
  {
    r := b;
    var k := n;
    while k > 0
      invariant 0 <= k <= n && r == b + Rep(SLASH, n - k)
    {
      r := r + [SLASH];
      k := k - 1;
    }
  }

  method EscapeWinArg(s: Arg) returns (r: seq<byte>)
    ensures r == Escaped(s)
  {
    if s == [] {
      return [QUOTE, QUOTE];
    }
    var needs := false;
    var i := 0;
    while i < |s| && !needs
      invariant 0 <= i <= |s|
      invariant needs ==> Needs(s)
      invariant !needs ==> SPACE !in s[..i] && TAB !in s[..i] && QUOTE !in s[..i]
    {
      needs := s[i] == SPACE || s[i] == TAB || s[i] == QUOTE;
      i := i + 1;
    }
    if !needs {
      assert s[..i] == s;
      return s;
    }
    var b := [QUOTE];
    var slashes := 0;
    i := 0;
    while i < |s|
      invariant 0 <= i <= |s| && 0 <= slashes
      invariant b + Body(s[i..], slashes) == [QUOTE] + Body(s, 0)
    {
      var c := s[i];
      assert s[i..][1..] == s[i + 1..];
      ghost var whole := b + Body(s[i..], slashes);
      if c == SLASH {
        slashes := slashes + 1;
      } else if c == QUOTE {
        b := AppendSlashes(b, slashes);
        slashes := 0;
        b := b + [SLASH];
      } else {
        slashes := 0;
      }
      b := b + [c];
      assert b + Body(s[i + 1..], slashes) == whole;
      i := i + 1;
    }
    b := AppendSlashes(b, slashes);
    r := b + [QUOTE];
  }

  method WindowsCmdLine(args: seq<Arg>) returns (line: seq<byte>)
    ensures line == Joined(args)
  {
    var q: seq<seq<byte>> := [];
    var i := 0;
    while i < |args|
      invariant 0 <= i <= |args| && |q| == i && forall k :: 0 <= k < i ==> q[k] == Escaped(args[k])
    {
      var e := EscapeWinArg(args[i]);
      q := q + [e];
      i := i + 1;
    }
    line := [];
    i := |q|;
    while i > 0
      invariant 0 <= i <= |q| && line == Joined(args[i..])
    {
      i := i - 1;
      assert args[i..][1..] == args[i + 1..];
      line := if i + 1 == |q| then q[i] else q[i] + [SPACE] + line;
    }
    assert args[0..] == args;
  }

  // ---- parsing, after argv[0] ----

  /** Finished arguments, the current one (if any), inside quotes, pending backslashes, and
      whether the last byte was a quote that closed a quoted part. A second quote right after
      such a quote stands for itself; `stays` tells which of the two known rules holds then,
      that the quoted part goes on or that it is over. */
  datatype P = P(done: seq<Arg>, cur: Option<Arg>, quoted: bool, slashes: nat, closed: bool, stays: bool)

  function Start(done: seq<Arg>, stays: bool): P {
    P(done, None, false, 0, false, stays)
  }

  function Text(p: P): Arg {
    if p.cur.Some? then p.cur.value else []
  }

  /** Backslashes count only before a quote: pairs become one, an odd one makes the quote
      literal. Unquoted space and tab end an argument. */
  function Feed(p: P, c: byte): P {
    if c == SLASH then
      p.(cur := Some(Text(p)), slashes := p.slashes + 1, closed := false)
    else if c == QUOTE && p.closed then
      p.(cur := Some(Text(p) + [QUOTE]), quoted := p.stays, closed := false)
    else if c == QUOTE then
      var t := Text(p) + Rep(SLASH, p.slashes / 2);
      if p.slashes % 2 == 1 then p.(cur := Some(t + [QUOTE]), slashes := 0)
      else p.(cur := Some(t), quoted := !p.quoted, slashes := 0, closed := p.quoted)
    else
      var t := Text(p) + Rep(SLASH, p.slashes);
      if (c == SPACE || c == TAB) && !p.quoted then
        if p.cur.Some? then Start(p.done + [t], p.stays) else p
      else p.(cur := Some(t + [c]), slashes := 0, closed := false)
  }

  function Run(p: P, s: seq<byte>): P
    decreases |s|
  {
    if s == [] then p else Run(Feed(p, s[0]), s[1..])
  }

  function Finish(p: P): seq<Arg> {
    if p.cur.Some? then p.done + [p.cur.value + Rep(SLASH, p.slashes)] else p.done
  }

  function Parse(line: seq<byte>, stays: bool): seq<Arg> {
    Finish(Run(Start([], stays), line))
  }

  // ---- parsing undoes quoting ----

  lemma {:induction false} RunConcat(p: P, a: seq<byte>, b: seq<byte>)
    ensures Run(p, a + b) == Run(Run(p, a), b)
    decreases |a|
  {
    if a == [] {
      assert a + b == b;
    } else {
      assert (a + b)[1..] == a[1..] + b;
      RunConcat(Feed(p, a[0]), a[1..], b);
    }
  }

  lemma {:induction false} RunSlashes(p: P, n: nat)
    requires p.cur.Some? && !p.closed
    ensures Run(p, Rep(SLASH, n)) == p.(slashes := p.slashes + n)
    decreases n
  {
    if n > 0 {
      assert Rep(SLASH, n)[1..] == Rep(SLASH, n - 1);
      RunSlashes(p.(slashes := p.slashes + 1), n - 1);
    }
  }

  lemma RunCons(p: P, c: byte, s: seq<byte>)
    ensures Run(p, [c] + s) == Run(Feed(p, c), s)
  {
  }

  lemma RunOne(p: P, c: byte)
    ensures Run(p, [c]) == Feed(p, c)
  {
  }

  lemma RepAppend(n: nat)
    ensures Rep(SLASH, n) + [SLASH] == Rep(SLASH, n + 1)
  {
  }

  /** An argument that needs no quotes is read as it is; its last backslashes stay pending. */
  lemma {:induction false} RunPlain(p: P, s: Arg)
    requires !Needs(s) && !p.quoted && !p.closed && s != []
    ensures var q := Run(p, s);
            q.done == p.done && !q.quoted && q.stays == p.stays && q.cur.Some?
            && q.cur.value + Rep(SLASH, q.slashes) == Text(p) + Rep(SLASH, p.slashes) + s
    decreases |s|
  {
    var q := Feed(p, s[0]);
    RepAppend(p.slashes);
    assert Text(q) + Rep(SLASH, q.slashes) == Text(p) + Rep(SLASH, p.slashes) + [s[0]];
    if |s| > 1 {
      assert forall c :: c in s[1..] ==> c in s;
      RunPlain(q, s[1..]);
      assert Text(p) + Rep(SLASH, p.slashes) + [s[0]] + s[1..] == Text(p) + Rep(SLASH, p.slashes) + s;
    } else {
      assert s[1..] == [];
      assert s == [s[0]];
    }
  }

  /** Inside quotes: after `k` backslashes of the argument have been written once, the rest
      of the quoted form yields the rest of the argument and an even run of backslashes. */
  lemma {:induction false} RunBody(p: P, s: Arg, k: nat)
    requires p.quoted && !p.closed && p.cur.Some? && p.slashes == k
    ensures var q := Run(p, Body(s, k));
            q.done == p.done && q.quoted && !q.closed && q.stays == p.stays && q.cur.Some? && q.slashes % 2 == 0
            && q.cur.value + Rep(SLASH, q.slashes / 2) == p.cur.value + Rep(SLASH, k) + s
    decreases |s|
  {
    hide Rep, Run;
    if s == [] {
      RunSlashes(p, k);
      assert p.cur.value + Rep(SLASH, k) + s == p.cur.value + Rep(SLASH, k);
    } else if s[0] == SLASH {
      RunCons(p, SLASH, Body(s[1..], k + 1));
      RunBody(Feed(p, SLASH), s[1..], k + 1);
      RepAppend(k);
      assert p.cur.value + (Rep(SLASH, k) + [SLASH]) + s[1..] == p.cur.value + Rep(SLASH, k) + s;
    } else if s[0] == QUOTE {
      RunQuote(p, s, k);
    } else {
      var q := Feed(p, s[0]);
      RunCons(p, s[0], Body(s[1..], 0));
      RunBody(q, s[1..], 0);
      NoSlashes();
      assert q.cur.value + [] + s[1..] == p.cur.value + Rep(SLASH, k) + s;
    }
  }

  lemma NoSlashes()
    ensures Rep(SLASH, 0) == []
  {
  }

  /** Reading k more backslashes, one more and a quote: k backslashes and the quote. */
  lemma RunOddSlashes(p: P, k: nat, rest: seq<byte>)
    requires p.quoted && !p.closed && p.cur.Some? && p.slashes == k
    ensures Run(p, Rep(SLASH, k) + ([SLASH, QUOTE] + rest))
            == Run(p.(cur := Some(p.cur.value + Rep(SLASH, k) + [QUOTE]), slashes := 0), rest)
  {
    RunConcat(p, Rep(SLASH, k), [SLASH, QUOTE] + rest);
    RunSlashes(p, k);
    hide Run;
    var p2 := p.(slashes := 2 * k);
    assert [SLASH, QUOTE] + rest == [SLASH] + ([QUOTE] + rest);
    RunCons(p2, SLASH, [QUOTE] + rest);
    RunCons(Feed(p2, SLASH), QUOTE, rest);
    hide Rep;
    assert (2 * k + 1) / 2 == k && (2 * k + 1) % 2 == 1;
  }

  /** k backslashes and a quote: written as 2k + 1 backslashes and the quote. */
  lemma RunQuote(p: P, s: Arg, k: nat)
    requires p.quoted && !p.closed && p.cur.Some? && p.slashes == k && s != [] && s[0] == QUOTE
    ensures var q := Run(p, Body(s, k));
            q.done == p.done && q.quoted && !q.closed && q.stays == p.stays && q.cur.Some? && q.slashes % 2 == 0
            && q.cur.value + Rep(SLASH, q.slashes / 2) == p.cur.value + Rep(SLASH, k) + s
    decreases |s|, 0
  {
    hide Rep, Run;
    var rest := Body(s[1..], 0);
    assert Body(s, k) == Rep(SLASH, k) + ([SLASH, QUOTE] + rest);
    RunOddSlashes(p, k, rest);
    var t := p.cur.value + Rep(SLASH, k) + [QUOTE];
    RunBody(p.(cur := Some(t), slashes := 0), s[1..], 0);
    NoSlashes();
    assert t + [] + s[1..] == p.cur.value + Rep(SLASH, k) + s;
  }

  /** One quoted argument, from a clean start: all of it, with the quotes closed again. */
  lemma RunEscaped(done: seq<Arg>, s: Arg, stays: bool)
    ensures var q := Run(Start(done, stays), Escaped(s));
            q.done == done && !q.quoted && q.stays == stays && q.cur.Some? && q.cur.value + Rep(SLASH, q.slashes) == s
  {
    var p := Start(done, stays);
    NoSlashes();
    if s == [] {
      assert Escaped(s) == [QUOTE] + [QUOTE];
      RunCons(p, QUOTE, [QUOTE]);
      RunOne(Feed(p, QUOTE), QUOTE);
    } else if !Needs(s) {
      RunPlain(p, s);
    } else {
      var b := Body(s, 0);
      assert Escaped(s) == [QUOTE] + (b + [QUOTE]);
      var p1 := Feed(p, QUOTE);
      RunCons(p, QUOTE, b + [QUOTE]);
      RunConcat(p1, b, [QUOTE]);
      RunBody(p1, s, 0);
      RunOne(Run(p1, b), QUOTE);
      assert p1.cur.value + Rep(SLASH, 0) + s == s;
    }
  }

  lemma RunNothing(p: P)
    ensures Run(p, []) == p
  {
  }

  lemma {:induction false} RunJoined(done: seq<Arg>, args: seq<Arg>, stays: bool)
    ensures Finish(Run(Start(done, stays), Joined(args))) == done + args
    decreases |args|
  {
    hide Run, Escaped, Rep;
    if args == [] {
      RunNothing(Start(done, stays));
      assert done + args == done;
    } else {
      RunEscaped(done, args[0], stays);
      var q := Run(Start(done, stays), Escaped(args[0]));
      if |args| == 1 {
        assert args == [args[0]];
      } else {
        RunConcat(Start(done, stays), Escaped(args[0]), [SPACE] + Joined(args[1..]));
        assert Joined(args) == Escaped(args[0]) + ([SPACE] + Joined(args[1..]));
        RunCons(q, SPACE, Joined(args[1..]));
        assert Feed(q, SPACE) == Start(done + [args[0]], stays);
        RunJoined(done + [args[0]], args[1..], stays);
        assert done + [args[0]] + args[1..] == done + args;
      }
    }
  }

  /** For every list of arguments, parsing the command line gives the list back, under
      either rule for doubled quotes. */
  lemma ParseUndoesQuoting(args: seq<Arg>, stays: bool)
    ensures Parse(Joined(args), stays) == args
  {
    RunJoined([], args, stays);
    assert [] + args == args;
  }
}
