/** Coverage weights of the box filter along one axis: destination cell i covers the
    source interval [i*s, (i+1)*s) in units of 1/d of a source cell. */
module Axis {
  import opened Geometry

  /** First source cell that destination i overlaps. */
  function First(s: int, d: int, i: int): int
    requires d > 0
  {
    i * s / d
  }

  /** One past the last source cell that destination i overlaps. */
  function End(s: int, d: int, i: int): int
    requires d > 0
  {
    Min((i * s + s + d - 1) / d, s)
  }

  function Span(s: int, d: int, i: int): int
    requires d > 0
  {
    End(s, d, i) - First(s, d, i)
  }

  /** Length of the overlap of source cell j with destination i. */
  function Overlap(s: int, d: int, i: int, j: int): int {
    Min(i * s + s, j * d + d) - Max(i * s, j * d)
  }

  function TapWeight(lo: int, hi: int, j: int, d: int, s: int): int
    requires s > 0
  {
    (Min(hi, j * d + d) - Max(lo, j * d)) * 256 / s
  }

  function Raw(s: int, d: int, i: int, k: int): int
    requires s > 0 && d > 0
  {
    TapWeight(i * s, i * s + s, First(s, d, i) + k, d, s)
  }

  function RawSum(s: int, d: int, i: int, n: nat): int
    requires s > 0 && d > 0
  {
    if n == 0 then 0 else RawSum(s, d, i, n - 1) + Raw(s, d, i, n - 1)
  }

  /** The first of the largest raw weights: it absorbs the rounding remainder. */
  function Big(s: int, d: int, i: int, n: nat): (k: nat)
    requires s > 0 && d > 0
    ensures k < n || k == 0
  {
    if n == 0 then 0 else
    var b := Big(s, d, i, n - 1);
    if Raw(s, d, i, n - 1) > Raw(s, d, i, b) then n - 1 else b
  }

  function Weight(s: int, d: int, i: int, k: int): int
    requires s > 0 && d > 0 && Span(s, d, i) > 0
  {
    Raw(s, d, i, k) + if k == Big(s, d, i, Span(s, d, i)) then 256 - RawSum(s, d, i, Span(s, d, i)) else 0
  }

  function TapsOf(s: int, d: int): int
    requires d > 0
  {
    (s + d - 1) / d + 1
  }

  /** Tap counts are stored in 8 bits. */
  datatype ScaleAxis = ScaleAxis(srcN: int, dstN: int, taps: int, start: seq<int>, cnt: seq<int>, w: seq<seq<int>>)

  ghost function WeightRow(s: int, d: int, i: int): seq<int>
    requires s > 0 && d > 0 && 0 <= i < d
  {
    SpanBounds(s, d, i);
    seq(TapsOf(s, d), k => if 0 <= k < Span(s, d, i) then Weight(s, d, i, k) else 0)
  }

  ghost function AxisOf(s: int, d: int): ScaleAxis
    requires s > 0 && d > 0
  {
    ScaleAxis(s, d, TapsOf(s, d),
              seq(d, i => First(s, d, i)),
              seq(d, i requires 0 <= i < d => Span(s, d, i) % 256),
              seq(d, i requires 0 <= i < d => WeightRow(s, d, i)))
  }

  // ---- integer division ----

  lemma DivFloor(n: int, d: int)
    requires d > 0
    ensures (n / d) * d <= n < (n / d) * d + d
  {
  }

  lemma MulLess(a: int, b: int, c: int)
    requires c > 0
    ensures a < b ==> a * c + c <= b * c
    ensures a <= b ==> a * c <= b * c
  {
    MulMono(a + 1, b, c);
    MulMono(a, b, c);
    Distribute(a, 1, c);
  }

  lemma MulCancel(a: int, b: int, c: int)
    requires c > 0 && a * c < b * c
    ensures a < b
  {
  }

  lemma DivBelow(n: int, d: int, q: int)
    requires d > 0 && n < q * d
    ensures n / d < q
  {
  }

  lemma DivAtLeast(n: int, d: int, q: int)
    requires d > 0 && q * d <= n
    ensures q <= n / d
  {
    DivFloor(n, d);
    assert (n / d + 1) * d == (n / d) * d + d;
    MulCancel(q, n / d + 1, d);
  }

  // ---- the cells of one destination ----

  /** A destination has at least one cell, at most `taps`, all inside the source. */
  lemma SpanBounds(s: int, d: int, i: int)
    requires s > 0 && d > 0 && 0 <= i < d
    ensures 0 <= First(s, d, i) < End(s, d, i) <= s
    ensures 1 <= Span(s, d, i) <= TapsOf(s, d)
    ensures (End(s, d, i) - 1) * d < i * s + s <= End(s, d, i) * d
    ensures End(s, d, i) == (i * s + s + d - 1) / d
  {
    MulLess(i, d, s);
    MulLess(0, i, s);
    SpanOf(i * s, s, d);
  }

  lemma CeilDiv(n: int, d: int)
    requires d > 0
    ensures ((n + d - 1) / d - 1) * d < n <= ((n + d - 1) / d) * d
  {
  }

  lemma Distribute(a: int, b: int, c: int)
    ensures (a + b) * c == a * c + b * c
  {
  }

  lemma SpanOf(lo: int, s: int, d: int)
    requires s > 0 && d > 0 && 0 <= lo && lo + s <= d * s
    ensures var f, e, t := lo / d, (lo + s + d - 1) / d, (s + d - 1) / d;
            0 <= f < e <= s && e - f <= t + 1 && (e - 1) * d < lo + s <= e * d
  {
    var f, e, t := lo / d, (lo + s + d - 1) / d, (s + d - 1) / d;
    DivFloor(lo, d);
    CeilDiv(lo + s, d);
    CeilDiv(s, d);
    DivAtLeast(lo, d, 0);
    MulCancel(e - 1, s, d);
    MulCancel(f, e, d);
    Distribute(f, t, d);
    Distribute(f + t, 1, d);
    MulCancel(e - 1, f + t + 1, d);
  }

  lemma OverlapSign(lo: int, s: int, d: int, f: int, e: int, j: int)
    requires d > 0 && s > 0 && f * d <= lo < f * d + d && (e - 1) * d < lo + s <= e * d
    ensures f <= j < e <==> Min(lo + s, j * d + d) - Max(lo, j * d) > 0
  {
    Distribute(e, -1, d);
    MulLess(f, j, d);
    MulLess(j, f, d);
    MulLess(j, e - 1, d);
    MulLess(e, j, d);
  }

  /** Exactly the cells First..End overlap the destination. */
  lemma CellsAreOverlaps(s: int, d: int, i: int, j: int)
    requires s > 0 && d > 0 && 0 <= i < d
    ensures First(s, d, i) <= j < End(s, d, i) <==> Overlap(s, d, i, j) > 0
  {
    SpanBounds(s, d, i);
    DivFloor(i * s, d);
    OverlapSign(i * s, s, d, First(s, d, i), End(s, d, i), j);
  }

  /** Source cell j contributes to destination i only if their scaled positions meet:
      the converse direction of the footprint, from source to destination. */
  lemma Footprint(s: int, d: int, i: int, j: int, a: int, b: int)
    requires s > 0 && d > 0 && 0 <= i < d
    requires First(s, d, i) <= j < End(s, d, i)
    requires 0 <= a <= j < b
    ensures a * d / s <= i < (b * d + s - 1) / s
  {
    SpanBounds(s, d, i);
    DivFloor(i * s, d);
    MulLess(a, j, d);
    MulLess(j, b, d);
    MulLess(j, End(s, d, i) - 1, d);
    MulLess(First(s, d, i), j, d);
    assert (i + 1) * s == i * s + s;
    DivBelow(a * d, s, i + 1);
    DivAtLeast(b * d + s - 1, s, i + 1);
  }

  // ---- weights ----

  ghost function OverlapSum(s: int, d: int, i: int, n: nat): int
    requires d > 0
  {
    if n == 0 then 0 else OverlapSum(s, d, i, n - 1) + Overlap(s, d, i, First(s, d, i) + n - 1)
  }

  /** The overlaps of consecutive cells telescope. */
  lemma {:induction false} OverlapTelescopes(s: int, d: int, i: int, n: nat)
    requires s > 0 && d > 0 && 0 <= i < d && 1 <= n <= Span(s, d, i)
    ensures OverlapSum(s, d, i, n) == Min(i * s + s, (First(s, d, i) + n) * d) - i * s
  {
    SpanBounds(s, d, i);
    var f := First(s, d, i);
    DivFloor(i * s, d);
    LastCell(i * s, s, d, f, n, End(s, d, i));
    if n > 1 {
      OverlapTelescopes(s, d, i, n - 1);
    } else {
      assert OverlapSum(s, d, i, 0) == 0;
    }
  }

  /** Cell f + n - 1 ends n cells after f begins, and starts inside the destination. */
  lemma LastCell(lo: int, s: int, d: int, f: int, n: nat, e: int)
    requires d > 0 && 1 <= n && f + n <= e && f * d <= lo && (e - 1) * d < lo + s
    ensures (f + n) * d == (f + n - 1) * d + d && (f + n - 1) * d < lo + s
    ensures n > 1 ==> f * d + d <= (f + n - 1) * d
  {
    Distribute(f + n - 1, 1, d);
    Distribute(f, 1, d);
    MulLess(f, f + n - 1, d);
    MulLess(f + n - 1, e - 1, d);
  }

  lemma RawBound(s: int, d: int, i: int, k: int)
    requires s > 0 && d > 0 && 0 <= i < d && 0 <= k < Span(s, d, i)
    ensures 0 <= Raw(s, d, i, k)
    ensures 0 <= Raw(s, d, i, k) * s <= 256 * Overlap(s, d, i, First(s, d, i) + k)
  {
    var o := Overlap(s, d, i, First(s, d, i) + k);
    CellsAreOverlaps(s, d, i, First(s, d, i) + k);
    DivFloor(o * 256, s);
    DivAtLeast(o * 256, s, 0);
    MulLess(0, o * 256 / s, s);
  }

  lemma {:induction false} RawSumBound(s: int, d: int, i: int, n: nat)
    requires s > 0 && d > 0 && 0 <= i < d && n <= Span(s, d, i)
    ensures 0 <= RawSum(s, d, i, n) * s <= 256 * OverlapSum(s, d, i, n)
    ensures forall k :: 0 <= k < n ==> 0 <= Raw(s, d, i, k)
  {
    if n > 0 {
      RawSumBound(s, d, i, n - 1);
      RawBound(s, d, i, n - 1);
      Distribute(RawSum(s, d, i, n - 1), Raw(s, d, i, n - 1), s);
    }
  }

  lemma RawSumAtMost256(s: int, d: int, i: int)
    requires s > 0 && d > 0 && 0 <= i < d
    ensures Span(s, d, i) > 0 && 0 <= RawSum(s, d, i, Span(s, d, i)) <= 256
    ensures forall k :: 0 <= k < Span(s, d, i) ==> 0 <= Raw(s, d, i, k)
  {
    var n := Span(s, d, i);
    SpanBounds(s, d, i);
    OverlapTelescopes(s, d, i, n);
    RawSumBound(s, d, i, n);
    var t := RawSum(s, d, i, n);
    MulCancel(-1, t, s);
    MulCancel(t, 257, s);
  }

  ghost function Sum(ws: seq<int>): int {
    if ws == [] then 0 else Sum(ws[..|ws| - 1]) + ws[|ws| - 1]
  }

  lemma {:induction false} WeightPrefix(s: int, d: int, i: int, n: nat)
    requires s > 0 && d > 0 && 0 <= i < d && n <= Span(s, d, i) <= |WeightRow(s, d, i)|
    ensures Sum(WeightRow(s, d, i)[..n])
            == RawSum(s, d, i, n) + if Big(s, d, i, Span(s, d, i)) < n then 256 - RawSum(s, d, i, Span(s, d, i)) else 0
  {
    hide Raw;
    if n > 0 {
      WeightPrefix(s, d, i, n - 1);
      var row := WeightRow(s, d, i);
      assert row[..n][..n - 1] == row[..n - 1];
      assert row[n - 1] == Weight(s, d, i, n - 1);
    }
  }

  lemma WeightAt(s: int, d: int, i: int, k: int)
    requires s > 0 && d > 0 && 0 <= i < d && 0 <= k < TapsOf(s, d)
    ensures 0 <= WeightRow(s, d, i)[k]
    ensures Span(s, d, i) <= k ==> WeightRow(s, d, i)[k] == 0
  {
    if k < Span(s, d, i) {
      RawSumAtMost256(s, d, i);
      assert 0 <= Raw(s, d, i, k);
    }
  }

  /** Every destination: non-negative weights on its cells, zero elsewhere, exactly 256 in all. */
  lemma WeightsSumTo256(s: int, d: int, i: int)
    requires s > 0 && d > 0 && 0 <= i < d
    ensures 1 <= Span(s, d, i) <= |WeightRow(s, d, i)| == TapsOf(s, d)
    ensures Sum(WeightRow(s, d, i)[..Span(s, d, i)]) == 256
    ensures forall k :: 0 <= k < TapsOf(s, d) ==> 0 <= WeightRow(s, d, i)[k]
    ensures forall k :: Span(s, d, i) <= k < TapsOf(s, d) ==> WeightRow(s, d, i)[k] == 0
  {
    SpanBounds(s, d, i);
    WeightPrefix(s, d, i, Span(s, d, i));
    assert Sum(WeightRow(s, d, i)[..Span(s, d, i)]) == 256;
    forall k | 0 <= k < TapsOf(s, d)
      ensures 0 <= WeightRow(s, d, i)[k] && (Span(s, d, i) <= k ==> WeightRow(s, d, i)[k] == 0)
    {
      WeightAt(s, d, i, k);
    }
  }

  /** The 8-bit tap count is the true count exactly when the span fits; then nothing is lost. */
  lemma CountIsExact(s: int, d: int, i: int)
    requires s > 0 && d > 0 && 0 <= i < d
    ensures AxisOf(s, d).cnt[i] == Span(s, d, i) <==> Span(s, d, i) <= 255
    ensures TapsOf(s, d) <= 255 ==> Span(s, d, i) <= 255
  {
    SpanBounds(s, d, i);
  }

  /** A whole line into one destination: it spans all s cells, and the stored count is
      s mod 256. For 256 cells that is 0, and no cell is read at all. */
  lemma EightBitCountLosesTheSpan(s: int)
    requires s > 0
    ensures Span(s, 1, 0) == s && AxisOf(s, 1).cnt[0] == s % 256
    ensures s == 256 ==> AxisOf(s, 1).cnt[0] == 0
  {
    SpanBounds(s, 1, 0);
    hide WeightRow;
  }

  /** The applied weights are all of them: the span fits in 8 bits, or every cell but the
      first has weight 0 and the stored count is not 0. */
  predicate FullWeight(s: int, d: int, i: int)
    requires d > 0
  {
    Span(s, d, i) <= 255 || (s > 256 * d && Span(s, d, i) % 256 != 0)
  }

  lemma {:induction false} NothingButRest(s: int, d: int, i: int, n: nat)
    requires s > 256 * d && d > 0 && 0 <= i < d && n <= Span(s, d, i)
    ensures RawSum(s, d, i, n) == 0 && Big(s, d, i, n) == 0
    ensures n > 0 ==> Raw(s, d, i, 0) == 0
  {
    if n > 0 {
      NothingButRest(s, d, i, n - 1);
      RawBound(s, d, i, n - 1);
      MulCancel(Raw(s, d, i, n - 1), 1, s);
    }
  }

  /** The second cell of a span of at least three is wholly covered. */
  lemma SecondCell(s: int, d: int, i: int)
    requires s > 0 && d > 0 && 0 <= i < d && Span(s, d, i) >= 3 && s <= 256 * d
    ensures Raw(s, d, i, 1) >= 1
  {
    SpanBounds(s, d, i);
    DivFloor(i * s, d);
    var f, e := First(s, d, i), End(s, d, i);
    MulLess(f + 2, e - 1, d);
    Distribute(f, 1, d);
    Distribute(f, 2, d);
    assert Overlap(s, d, i, f + 1) == d;
    DivAtLeast(d * 256, s, 1);
  }

  lemma {:induction false} RawSumGrows(s: int, d: int, i: int, n: nat)
    requires s > 0 && d > 0 && 0 <= i < d && 2 <= n <= Span(s, d, i)
    ensures RawSum(s, d, i, n) >= Raw(s, d, i, 0) + Raw(s, d, i, 1)
  {
    if n == 2 {
      assert RawSum(s, d, i, 1) == RawSum(s, d, i, 0) + Raw(s, d, i, 0);
    } else {
      RawSumGrows(s, d, i, n - 1);
      RawBound(s, d, i, n - 1);
    }
  }

  lemma FirstWeightIsPart(s: int, d: int, i: int)
    requires 0 < s <= 256 * d && d > 0 && 0 <= i < d && Span(s, d, i) >= 256
    ensures Span(s, d, i) <= 257 && Sum(WeightRow(s, d, i)[..Span(s, d, i) % 256]) < 256
  {
    var n := Span(s, d, i);
    SpanBounds(s, d, i);
    DivBelow(s + d - 1, d, 257);
    SecondCell(s, d, i);
    RawSumGrows(s, d, i, n);
    RawSumAtMost256(s, d, i);
    WeightPrefix(s, d, i, n % 256);
    hide Raw, WeightRow, Span;
    assert RawSum(s, d, i, 1) == RawSum(s, d, i, 0) + Raw(s, d, i, 0);
  }

  /** The weights under the stored count sum to 256 exactly in the cases of FullWeight. */
  lemma AppliedWeight(s: int, d: int, i: int)
    requires s > 0 && d > 0 && 0 <= i < d
    ensures 0 <= Span(s, d, i) % 256 <= Span(s, d, i) <= |WeightRow(s, d, i)|
    ensures Sum(WeightRow(s, d, i)[..Span(s, d, i) % 256]) == 256 <==> FullWeight(s, d, i)
  {
    var n := Span(s, d, i);
    SpanBounds(s, d, i);
    WeightsSumTo256(s, d, i);
    if n > 255 && s <= 256 * d {
      FirstWeightIsPart(s, d, i);
    } else if n > 255 {
      NothingButRest(s, d, i, n % 256);
      NothingButRest(s, d, i, n);
      WeightPrefix(s, d, i, n % 256);
    }
  }

  lemma {:induction false} SumNonNegative(ws: seq<int>)
    requires forall k :: 0 <= k < |ws| ==> 0 <= ws[k]
    ensures 0 <= Sum(ws)
  {
    if ws != [] {
      SumNonNegative(ws[..|ws| - 1]);
    }
  }

  lemma {:induction false} SumPrefix(ws: seq<int>, n: nat)
    requires n <= |ws| && forall k :: 0 <= k < |ws| ==> 0 <= ws[k]
    ensures 0 <= Sum(ws[..n]) <= Sum(ws)
    decreases |ws|
  {
    if n == |ws| {
      assert ws[..n] == ws;
      SumNonNegative(ws);
    } else {
      SumPrefix(ws[..|ws| - 1], n);
      assert ws[..|ws| - 1][..n] == ws[..n];
    }
  }

  /** The constructor's loops. */
  method NewScaleAxis(s: int, d: int) returns (a: ScaleAxis)
    requires s > 0 && d > 0
    ensures a == AxisOf(s, d)
  {
    var taps := (s + d - 1) / d + 1;
    var start: seq<int>, cnt: seq<int>, w: seq<seq<int>> := [], [], [];
    var i := 0;
    while i < d
      invariant 0 <= i <= d
      invariant |start| == |cnt| == |w| == i
      invariant start == AxisOf(s, d).start[..i]
      invariant cnt == AxisOf(s, d).cnt[..i]
      invariant w == AxisOf(s, d).w[..i]
    {
      SpanBounds(s, d, i);
      RawSumAtMost256(s, d, i);
      var row := AxisRow(s, d, i, taps);
      start := start + [i * s / d];
      cnt := cnt + [(Min((i * s + s + d - 1) / d, s) - i * s / d) % 256];
      w := w + [row];
      i := i + 1;
    }
    a := ScaleAxis(s, d, taps, start, cnt, w);
  }

  /** The state of the weight loop after n cells: raw weights so far, their sum, the largest. */
  ghost predicate RowSoFar(s: int, d: int, i: int, n: int, row: seq<int>, sum: int, big: int)
    requires s > 0 && d > 0
  {
    && 0 <= n && sum == RawSum(s, d, i, n) && big == Big(s, d, i, n)
    && forall k :: 0 <= k < |row| ==> row[k] == if k < n then Raw(s, d, i, k) else 0
  }

  lemma RowStarts(s: int, d: int, i: int, taps: nat)
    requires s > 0 && d > 0
    ensures RowSoFar(s, d, i, 0, seq(taps, _ => 0), 0, 0)
  {
  }

  lemma RowGrows(s: int, d: int, i: int, n: int, row: seq<int>, sum: int, big: int)
    requires s > 0 && d > 0 && 0 <= n < |row| && 0 <= Raw(s, d, i, n) && RowSoFar(s, d, i, n, row, sum, big)
    ensures var w := Raw(s, d, i, n);
            RowSoFar(s, d, i, n + 1, row[n := w], sum + w, if w > row[n := w][big] then n else big)
  {
    hide Raw;
  }

  lemma RowEnds(s: int, d: int, i: int, row: seq<int>, sum: int, big: int)
    requires s > 0 && d > 0 && 0 <= i < d && |row| == TapsOf(s, d) && RowSoFar(s, d, i, Span(s, d, i), row, sum, big)
    ensures big < |row| && row[big := row[big] + (256 - sum)] == WeightRow(s, d, i)
  {
    SpanBounds(s, d, i);
    hide Raw, RawSum, Big, Span;
  }

  /** Weights of one destination, largest raw weight topped up. */
  method AxisRow(s: int, d: int, i: int, taps: int) returns (row: seq<int>)
    requires s > 0 && d > 0 && 0 <= i < d && taps == TapsOf(s, d)
    ensures row == WeightRow(s, d, i)
  {
    SpanBounds(s, d, i);
    var lo := i * s;
    var hi := lo + s;
    var j0 := lo / d;
    var j1 := Min((hi + d - 1) / d, s);
    row := seq(taps, _ => 0);
    var sum, big := 0, 0;
    RowStarts(s, d, i, taps);
    hide RowSoFar, Raw, WeightRow;
    var j := j0;
    while j < j1
      invariant j0 <= j <= j1 && |row| == taps && 0 <= big < taps
      invariant RowSoFar(s, d, i, j - j0, row, sum, big)
    {
      RawBound(s, d, i, j - j0);
      RawIs(s, d, i, j);
      RowGrows(s, d, i, j - j0, row, sum, big);
      var w := TapWeight(lo, hi, j, d, s);
      row := row[j - j0 := w];
      sum := sum + w;
      if w > row[big] {
        big := j - j0;
      }
      j := j + 1;
    }
    RowEnds(s, d, i, row, sum, big);
    row := row[big := row[big] + (256 - sum)];
  }

  lemma RawIs(s: int, d: int, i: int, j: int)
    requires s > 0 && d > 0
    ensures Raw(s, d, i, j - First(s, d, i)) == TapWeight(i * s, i * s + s, j, d, s)
  {
  }
}
