/** Half-open integer rectangles with the corner conventions of Go's image package,
    and the counting view of rectangle lists: a list partitions a region exactly when
    every point of the region is counted once and every other point not at all. */
module Geometry {

  datatype Rect = Rect(x0: int, y0: int, x1: int, y1: int) {
    predicate Empty() {
      x0 >= x1 || y0 >= y1
    }

    function Dx(): int {
      x1 - x0
    }

    function Dy(): int {
      y1 - y0
    }

    predicate Has(x: int, y: int) {
      x0 <= x < x1 && y0 <= y < y1
    }

    function Canon(): Rect {
      Corners(x0, y0, x1, y1)
    }

    function Intersect(s: Rect): Rect {
      var r := Rect(Max(x0, s.x0), Max(y0, s.y0), Min(x1, s.x1), Min(y1, s.y1));
      if r.Empty() then Rect(0, 0, 0, 0) else r
    }

    function Union(s: Rect): Rect {
      if Empty() then s
      else if s.Empty() then this
      else Rect(Min(x0, s.x0), Min(y0, s.y0), Max(x1, s.x1), Max(y1, s.y1))
    }

    function Sub(dx: int, dy: int): Rect {
      Rect(x0 - dx, y0 - dy, x1 - dx, y1 - dy)
    }

    /** Inside the w x h canvas with ordered corners; possibly empty. */
    predicate Within(w: int, h: int) {
      0 <= x0 <= x1 <= w && 0 <= y0 <= y1 <= h
    }
  }

  function Min(a: int, b: int): int {
    if a < b then a else b
  }

  function Max(a: int, b: int): int {
    if a > b then a else b
  }

  /** image.Rect: corners are swapped into order. */
  function Corners(x0: int, y0: int, x1: int, y1: int): Rect {
    Rect(Min(x0, x1), Min(y0, y1), Max(x0, x1), Max(y0, y1))
  }

  function Bit(b: bool): nat {
    if b then 1 else 0
  }

  /** How many rectangles of the list contain the point. */
  ghost function Count(rs: seq<Rect>, x: int, y: int): nat {
    if rs == [] then 0 else Count(rs[..|rs| - 1], x, y) + Bit(rs[|rs| - 1].Has(x, y))
  }

  ghost predicate InSome(rs: seq<Rect>, x: int, y: int) {
    exists k :: 0 <= k < |rs| && rs[k].Has(x, y)
  }

  ghost predicate NoneEmpty(rs: seq<Rect>) {
    forall k :: 0 <= k < |rs| ==> !rs[k].Empty()
  }

  lemma MulMono(a: int, b: int, c: int)
    requires 0 <= c
    ensures a <= b ==> a * c <= b * c
  {
  }

  ghost predicate Disjoint(rs: seq<Rect>) {
    forall k, l, x, y :: 0 <= k < l < |rs| && rs[k].Has(x, y) ==> !rs[l].Has(x, y)
  }

  lemma CountAppend(rs: seq<Rect>, r: Rect)
    ensures forall x, y :: Count(rs + [r], x, y) == Count(rs, x, y) + Bit(r.Has(x, y))
  {
  }

  lemma {:induction false} CountConcatAt(a: seq<Rect>, b: seq<Rect>, x: int, y: int)
    ensures Count(a + b, x, y) == Count(a, x, y) + Count(b, x, y)
  {
    if b == [] {
      assert a + b == a;
    } else {
      CountConcatAt(a, b[..|b| - 1], x, y);
      assert (a + b)[..|a + b| - 1] == a + b[..|b| - 1];
    }
  }

  lemma CountConcat(a: seq<Rect>, b: seq<Rect>)
    ensures forall x, y :: Count(a + b, x, y) == Count(a, x, y) + Count(b, x, y)
  {
    forall x, y {
      CountConcatAt(a, b, x, y);
    }
  }

  lemma {:induction false} CountUpdateAt(rs: seq<Rect>, k: nat, r: Rect, x: int, y: int)
    requires k < |rs|
    ensures Count(rs[k := r], x, y) + Bit(rs[k].Has(x, y)) == Count(rs, x, y) + Bit(r.Has(x, y))
  {
    var n := |rs| - 1;
    if k == n {
      assert rs[k := r][..n] == rs[..n];
    } else {
      CountUpdateAt(rs[..n], k, r, x, y);
      assert rs[k := r][..n] == rs[..n][k := r];
    }
  }

  lemma CountUpdate(rs: seq<Rect>, k: nat, r: Rect)
    requires k < |rs|
    ensures forall x, y :: Count(rs[k := r], x, y) + Bit(rs[k].Has(x, y)) == Count(rs, x, y) + Bit(r.Has(x, y))
  {
    forall x, y {
      CountUpdateAt(rs, k, r, x, y);
    }
  }

  lemma {:induction false} CountPositive(rs: seq<Rect>, x: int, y: int)
    ensures Count(rs, x, y) > 0 <==> InSome(rs, x, y)
  {
    if rs != [] {
      var n := |rs| - 1;
      CountPositive(rs[..n], x, y);
      if InSome(rs[..n], x, y) {
        var k :| 0 <= k < n && rs[..n][k].Has(x, y);
        assert rs[k].Has(x, y);
      }
    }
  }

  lemma {:induction false} CountTwo(rs: seq<Rect>, k: nat, l: nat, x: int, y: int)
    requires k < l < |rs| && rs[k].Has(x, y) && rs[l].Has(x, y)
    ensures Count(rs, x, y) >= 2
  {
    var n := |rs| - 1;
    if l == n {
      assert rs[..n][k].Has(x, y);
      CountPositive(rs[..n], x, y);
    } else {
      CountTwo(rs[..n], k, l, x, y);
    }
  }

  /** No point counted twice: the rectangles are pairwise disjoint. */
  lemma CountDisjoint(rs: seq<Rect>)
    requires forall x, y :: Count(rs, x, y) <= 1
    ensures Disjoint(rs)
  {
    forall k, l, x, y | 0 <= k < l < |rs| && rs[k].Has(x, y)
      ensures !rs[l].Has(x, y)
    {
      if rs[l].Has(x, y) {
        CountTwo(rs, k, l, x, y);
      }
    }
  }
}
