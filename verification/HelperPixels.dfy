/** Row-major byte buffers, four bytes per pixel: copying a rectangle out and pasting it in. */
module HelperPixels {
  import opened Geometry
  import opened Raster

  /** A tightly packed image: the stride is 4 * w. */
  datatype Flat = Flat(w: nat, h: nat, pix: seq<byte>) {
    predicate Valid() {
      |pix| == 4 * w * h
    }
  }

  /** Byte b of row y. */
  function ByteAt(pix: seq<byte>, stride: int, y: int, b: int): byte {
    if 0 <= y * stride + b < |pix| then pix[y * stride + b] else 0
  }

  ghost predicate BytesIn(rc: Rect, y: int, b: int) {
    rc.y0 <= y < rc.y1 && 4 * rc.x0 <= b < 4 * rc.x1
  }

  /** out is the rectangle rc of the image, rows packed one after the other. */
  ghost predicate IsCopy(out: seq<byte>, pix: seq<byte>, stride: int, rc: Rect) {
    && |out| == rc.Dx() * rc.Dy() * 4
    && forall y, b :: BytesIn(rc, y, b) ==> ByteAt(out, 4 * rc.Dx(), y - rc.y0, b - 4 * rc.x0) == ByteAt(pix, stride, y, b)
  }

  /** after is before with the packed rectangle px written at rc; nothing else changed. */
  ghost predicate IsPaste(before: seq<byte>, after: seq<byte>, w: int, h: int, rc: Rect, px: seq<byte>) {
    && |after| == |before|
    && forall y, b :: 0 <= y < h && 0 <= b < 4 * w ==>
                        ByteAt(after, 4 * w, y, b)
                        == if BytesIn(rc, y, b) then ByteAt(px, 4 * rc.Dx(), y - rc.y0, b - 4 * rc.x0) else ByteAt(before, 4 * w, y, b)
  }

  /** A byte inside a w x h image is inside the buffer. */
  lemma InBuffer(w: nat, h: nat, y: int, b: int)
    requires 0 <= y < h && 0 <= b < 4 * w
    ensures 0 <= y * (4 * w) + b < 4 * w * h
  {
    MulMono(y + 1, h, 4 * w);
    MulMono(0, y, 4 * w);
  }

  lemma OffsetOf(w: nat, h: nat, k: int) returns (y: int, b: int)
    requires 0 <= k < 4 * w * h
    ensures 0 <= y < h && 0 <= b < 4 * w && k == y * (4 * w) + b
  {
    y, b := k / (4 * w), k % (4 * w);
    MulMono(h, y, 4 * w);
  }

  /** Images are equal when all their bytes are. */
  lemma SameBytes(a: Flat, b: Flat)
    requires a.Valid() && b.Valid() && a.w == b.w && a.h == b.h
    requires forall y, i :: 0 <= y < a.h && 0 <= i < 4 * a.w ==> ByteAt(a.pix, 4 * a.w, y, i) == ByteAt(b.pix, 4 * a.w, y, i)
    ensures a == b
  {
    forall k | 0 <= k < |a.pix|
      ensures a.pix[k] == b.pix[k]
    {
      var y, i := OffsetOf(a.w, a.h, k);
      assert ByteAt(a.pix, 4 * a.w, y, i) == ByteAt(b.pix, 4 * a.w, y, i);
    }
  }

  /** Pasting what was copied from the same rectangle of another image of the same size
      transfers exactly that rectangle. */
  lemma PasteOfCopy(src: Flat, before: Flat, after: Flat, rc: Rect, px: seq<byte>)
    requires src.Valid() && before.Valid() && after.Valid() && src.w == before.w == after.w && src.h == before.h == after.h
    requires rc.Within(src.w, src.h) && IsCopy(px, src.pix, 4 * src.w, rc) && IsPaste(before.pix, after.pix, src.w, src.h, rc, px)
    ensures forall y, b :: 0 <= y < src.h && 0 <= b < 4 * src.w ==>
                             ByteAt(after.pix, 4 * src.w, y, b) == if BytesIn(rc, y, b) then ByteAt(src.pix, 4 * src.w, y, b) else ByteAt(before.pix, 4 * src.w, y, b)
  {
  }

  /** The first y packed rows of n bytes, taken from row y0 and byte b0 of the image. */
  ghost predicate CopiedRows(out: seq<byte>, n: nat, y: nat, pix: seq<byte>, stride: int, y0: int, b0: int) {
    && |out| == y * n
    && forall j, b :: 0 <= j < y && 0 <= b < n ==> ByteAt(out, n, j, b) == ByteAt(pix, stride, y0 + j, b0 + b)
  }

  lemma CopyOneRow(out: seq<byte>, n: nat, y: nat, pix: seq<byte>, stride: int, y0: int, b0: int, row: seq<byte>)
    requires CopiedRows(out, n, y, pix, stride, y0, b0) && |row| == n
    requires forall b :: 0 <= b < n ==> row[b] == ByteAt(pix, stride, y0 + y, b0 + b)
    ensures CopiedRows(out + row, n, y + 1, pix, stride, y0, b0)
  {
    AppendRow(out, y, n, row);
    hide ByteAt;
  }

  lemma RowInside(y: int, end: int, stride: int, len: int, b0: int, n: int)
    requires 0 <= y < end && 0 <= b0 && 0 <= n && b0 + n <= stride && end * stride <= len
    ensures 0 <= y * stride + b0 && y * stride + b0 + n <= len
  {
    MulMono(0, y, stride);
    MulMono(y + 1, end, stride);
  }

  lemma CopiedIsCopy(out: seq<byte>, pix: seq<byte>, stride: int, s: Rect)
    requires s.x0 <= s.x1 && s.y0 <= s.y1 && CopiedRows(out, 4 * s.Dx(), s.Dy(), pix, stride, s.y0, 4 * s.x0)
    ensures IsCopy(out, pix, stride, s)
  {
  }

  /** Copying the row slices of an image whose buffer starts at (ox, oy). */
  method CopyRect(pix: seq<byte>, stride: int, ox: int, oy: int, rc: Rect) returns (out: seq<byte>)
    requires ox <= rc.x0 <= rc.x1 && oy <= rc.y0 <= rc.y1 && 4 * (rc.x1 - ox) <= stride
    requires (rc.y1 - oy) * stride <= |pix|
    ensures IsCopy(out, pix, stride, rc.Sub(ox, oy))
  {
    hide ByteAt, CopiedRows;
    out := [];
    var n := rc.Dx() * 4;
    NoRows(n, pix, stride, rc.y0 - oy, 4 * (rc.x0 - ox));
    var y := 0;
    while y < rc.Dy()
      invariant 0 <= y <= rc.Dy()
      invariant CopiedRows(out, n, y, pix, stride, rc.y0 - oy, 4 * (rc.x0 - ox))
    {
      var so := (rc.y0 + y - oy) * stride + (rc.x0 - ox) * 4;
      RowInside(rc.y0 + y - oy, rc.y1 - oy, stride, |pix|, 4 * (rc.x0 - ox), n);
      var row := pix[so..so + n];
      RowSlice(pix, stride, rc.y0 - oy + y, 4 * (rc.x0 - ox), row);
      CopyOneRow(out, n, y, pix, stride, rc.y0 - oy, 4 * (rc.x0 - ox), row);
      out := out + row;
      y := y + 1;
    }
    CopiedIsCopy(out, pix, stride, rc.Sub(ox, oy));
  }

  lemma NoRows(n: nat, pix: seq<byte>, stride: int, y0: int, b0: int)
    ensures CopiedRows([], n, 0, pix, stride, y0, b0)
  {
  }

  lemma RowSlice(pix: seq<byte>, stride: int, y: int, b0: int, row: seq<byte>)
    requires var so := y * stride + b0; 0 <= so && so + |row| <= |pix| && row == pix[so..so + |row|]
    ensures forall b :: 0 <= b < |row| ==> row[b] == ByteAt(pix, stride, y, b0 + b)
  {
  }

  lemma AppendRow(out: seq<byte>, y: nat, n: nat, row: seq<byte>)
    requires |out| == y * n && |row| == n
    ensures |out + row| == (y + 1) * n
    ensures forall j, b :: 0 <= j < y && 0 <= b < n ==> ByteAt(out + row, n, j, b) == ByteAt(out, n, j, b)
    ensures forall b :: 0 <= b < n ==> ByteAt(out + row, n, y, b) == row[b]
  {
    forall j, b | 0 <= j < y && 0 <= b < n
      ensures ByteAt(out + row, n, j, b) == ByteAt(out, n, j, b)
    {
      RowInside(j, y, n, |out|, b, 1);
    }
    MulMono(0, y, n);
  }

  /** In-place paste, row slice by row slice; every access is inside the buffer. */
  method PasteRect(canvas: array<byte>, w: nat, h: nat, rc: Rect, px: seq<byte>)
    requires canvas.Length == 4 * w * h && rc.Within(w, h) && |px| == rc.Dx() * rc.Dy() * 4
    modifies canvas
    ensures IsPaste(old(canvas[..]), canvas[..], w, h, rc, px)
  {
    var n := rc.Dx() * 4;
    var y := 0;
    while y < rc.Dy()
      invariant 0 <= y <= rc.Dy()
      invariant IsPaste(old(canvas[..]), canvas[..], w, h, Rect(rc.x0, rc.y0, rc.x1, rc.y0 + y), px)
    {
      PasteRow(canvas, w, h, rc, y, px);
      y := y + 1;
    }
  }

  method PasteRow(canvas: array<byte>, w: nat, h: nat, rc: Rect, y: int, px: seq<byte>)
    requires canvas.Length == 4 * w * h && rc.Within(w, h) && |px| == rc.Dx() * rc.Dy() * 4 && 0 <= y < rc.Dy()
    modifies canvas
    ensures forall j, b :: 0 <= j < h && 0 <= b < 4 * w ==>
                             ByteAt(canvas[..], 4 * w, j, b)
                             == if j == rc.y0 + y && 4 * rc.x0 <= b < 4 * rc.x1 then ByteAt(px, 4 * rc.Dx(), y, b - 4 * rc.x0) else ByteAt(old(canvas[..]), 4 * w, j, b)
  {
    hide ByteAt;
    var n := rc.Dx() * 4;
    var at := (rc.y0 + y) * (4 * w) + rc.x0 * 4;
    var from := y * n;
    assert rc.Dy() * n == |px| && h * (4 * w) == 4 * w * h;
    RowInside(rc.y0 + y, h, 4 * w, canvas.Length, 4 * rc.x0, n);
    RowInside(y, rc.Dy(), n, |px|, 0, n);
    ghost var before := canvas[..];
    forall b | 0 <= b < n {
      canvas[at + b] := px[from + b];
    }
    assert canvas[..] == before[..at] + px[from..from + n] + before[at + n..];
    SplicedRow(before, w, h, rc, y, px, canvas[..]);
  }

  lemma SplicedRow(before: seq<byte>, w: nat, h: nat, rc: Rect, y: int, px: seq<byte>, after: seq<byte>)
    requires |before| == 4 * w * h && rc.Within(w, h) && 0 <= y < rc.Dy()
    requires var n, at, from := rc.Dx() * 4, (rc.y0 + y) * (4 * w) + rc.x0 * 4, y * (rc.Dx() * 4);
             0 <= at && at + n <= |before| && 0 <= from && from + n <= |px| && after == before[..at] + px[from..from + n] + before[at + n..]
    ensures forall j, b :: 0 <= j < h && 0 <= b < 4 * w ==>
                             ByteAt(after, 4 * w, j, b)
                             == if j == rc.y0 + y && 4 * rc.x0 <= b < 4 * rc.x1 then ByteAt(px, 4 * rc.Dx(), y, b - 4 * rc.x0) else ByteAt(before, 4 * w, j, b)
  {
    var n, at := rc.Dx() * 4, (rc.y0 + y) * (4 * w) + rc.x0 * 4;
    forall j, b | 0 <= j < h && 0 <= b < 4 * w
      ensures ByteAt(after, 4 * w, j, b)
              == if j == rc.y0 + y && 4 * rc.x0 <= b < 4 * rc.x1 then ByteAt(px, 4 * rc.Dx(), y, b - 4 * rc.x0) else ByteAt(before, 4 * w, j, b)
    {
      InBuffer(w, h, j, b);
      RowOnly(w, rc.y0 + y, j, b, 4 * rc.x0, n);
    }
  }

  /** An offset inside the written slice belongs to that row and those bytes. */
  lemma RowOnly(w: nat, row: int, j: int, b: int, b0: int, n: int)
    requires 0 <= b < 4 * w && 0 <= b0 && b0 + n <= 4 * w
    ensures row * (4 * w) + b0 <= j * (4 * w) + b < row * (4 * w) + b0 + n <==> j == row && b0 <= b < b0 + n
  {
    MulMono(row + 1, j, 4 * w);
    MulMono(j + 1, row, 4 * w);
  }
}
