/** Pixel images. An image is its size and its rows; the row stride of the original
    buffers is not part of the value. */
module Raster {
  import opened Geometry

  datatype Option<+T> = None | Some(value: T)

  type byte = x: int | 0 <= x < 256

  datatype Pixel = Pixel(r: byte, g: byte, b: byte, a: byte)

  datatype Img = Img(w: nat, h: nat, px: seq<seq<Pixel>>) {
    predicate Valid() {
      |px| == h && forall y :: 0 <= y < h ==> |px[y]| == w
    }

    function At(x: int, y: int): Pixel
      requires Valid() && 0 <= x < w && 0 <= y < h
    {
      px[y][x]
    }
  }

  predicate SameSize(a: Img, b: Img) {
    a.w == b.w && a.h == b.h
  }

  ghost predicate AgreeAt(a: Img, b: Img, x: int, y: int)
    requires a.Valid() && b.Valid() && SameSize(a, b)
  {
    0 <= x < a.w && 0 <= y < a.h ==> a.At(x, y) == b.At(x, y)
  }

  /** The two images differ at most inside the rectangles. */
  ghost predicate AgreeOutside(a: Img, b: Img, rects: seq<Rect>) {
    a.Valid() && b.Valid() && SameSize(a, b)
    && forall x, y :: !InSome(rects, x, y) ==> AgreeAt(a, b, x, y)
  }

  lemma SamePixels(a: Img, b: Img)
    requires a.Valid() && b.Valid() && SameSize(a, b)
    requires forall x, y :: AgreeAt(a, b, x, y)
    ensures a == b
  {
    forall y | 0 <= y < a.h
      ensures a.px[y] == b.px[y]
    {
      forall x | 0 <= x < a.w
        ensures a.px[y][x] == b.px[y][x]
      {
        assert AgreeAt(a, b, x, y);
      }
    }
    assert a.px == b.px;
  }
}
