/** The darkness scorer: the share of dark pixels inside a bubble's disc,
    scaled to 0..255. The image is a pixel function already aligned to page
    coordinates. */
module Darkness {
  import opened Constants

  type Byte = b: int | 0 <= b < 256

  /** One pixel as four channel bytes: red, green, blue, alpha. */
  datatype Pixel = Pixel(r: Byte, g: Byte, b: Byte, a: Byte)

  /** A decoded page, addressed by (x, y). */
  type Image = (int, int) -> Pixel

  /** A pixel is dark when the plain mean of its colour channels is below
      the threshold; alpha plays no part. */
  predicate IsDark(p: Pixel): (dark: bool)
    ensures dark <==> p.r + p.g + p.b < 360
  {
    ((p.r + p.g + p.b) as real) / 3.0 < DARKNESS_THRESHOLD as real
  }

  /** Same colour channels; alpha may differ. */
  predicate SameShade(p: Pixel, q: Pixel)
  {
    p.r == q.r && p.g == q.g && p.b == q.b
  }

  /** Number of pixels in the 2r x 2r window read around a centre. */
  function WindowSize(radius: nat): nat
  {
    (2 * radius) * (2 * radius)
  }

  /** The window covers offsets -r .. r-1 on both axes. */
  predicate InWindow(radius: int, dx: int, dy: int)
  {
    -radius <= dx < radius && -radius <= dy < radius
  }

  /** The offset lies in the disc of the given radius (boundary included). */
  predicate InDisc(radius: int, dx: int, dy: int)
  {
    dx * dx + dy * dy <= radius * radius
  }

  /** Horizontal offset of the p-th pixel of the window, read row by row. */
  function OffsetX(radius: nat, p: nat): int
    requires radius > 0
  {
    p % (2 * radius) - radius
  }

  /** Vertical offset of the p-th pixel of the window, read row by row. */
  function OffsetY(radius: nat, p: nat): int
    requires radius > 0
  {
    p / (2 * radius) - radius
  }

  /** Position in the window of the pixel at offset (dx, dy). */
  function WindowIndex(radius: nat, dx: int, dy: int): (p: nat)
    requires InWindow(radius, dx, dy)
    ensures p < WindowSize(radius)
  {
    RowMajorBound(dy + radius, dx + radius, 2 * radius);
    (dy + radius) * (2 * radius) + (dx + radius)
  }

  /** Row a, column b of a w-wide square lies before its end. */
  lemma RowMajorBound(a: nat, b: nat, w: nat)
    requires a < w && b < w
    ensures a * w + b < w * w
  {
    MulLeft(a, w - 1, w);
    assert (w - 1) * w == w * w - w;
  }

  lemma MulLeft(a: int, b: int, c: nat)
    requires a <= b
    ensures a * c <= b * c
  {}

  /** Every pixel of the window sits at an offset inside the window, and
      the offset leads back to the same pixel. */
  lemma {:induction false} OffsetsRoundTrip(radius: nat, p: nat)
    requires p < WindowSize(radius)
    ensures radius > 0
    ensures InWindow(radius, OffsetX(radius, p), OffsetY(radius, p))
    ensures WindowIndex(radius, OffsetX(radius, p), OffsetY(radius, p)) == p
  {
    var w := 2 * radius;
    QuotientBelow(p, w);
    var dx, dy := OffsetX(radius, p), OffsetY(radius, p);
    assert InWindow(radius, dx, dy);
    assert WindowIndex(radius, dx, dy) == (p / w) * w + p % w;
  }

  /** Reading p < w * w row by row: the row p / w stays below w. */
  lemma QuotientBelow(p: nat, w: nat)
    requires p < w * w
    ensures w > 0 && p / w < w
  {
    var q := p / w;
    if q >= w {
      MulLeft(w, q, w);
    }
  }

  /** Every offset of the window is read, at exactly one position. */
  lemma {:induction false} WindowIndexRoundTrip(radius: nat, dx: int, dy: int)
    requires InWindow(radius, dx, dy)
    ensures radius > 0
    ensures OffsetX(radius, WindowIndex(radius, dx, dy)) == dx
    ensures OffsetY(radius, WindowIndex(radius, dx, dy)) == dy
  {
    var w := 2 * radius;
    var p := WindowIndex(radius, dx, dy);
    DivModUnique(p, dy + radius, w, dx + radius);
  }

  lemma DivModUnique(p: nat, q: nat, w: nat, m: nat)
    requires 0 <= m < w
    requires p == q * w + m
    ensures p / w == q && p % w == m
  {
    var q', m' := p / w, p % w;
    assert p == q' * w + m';
    assert (q - q') * w == m' - m by {
      assert q * w - q' * w == (q - q') * w;
    }
    if q > q' {
      MulLeft(1, q - q', w);
      assert false;
    } else if q < q' {
      MulLeft(1, q' - q, w);
      assert false;
    }
  }

  /** Number of disc pixels among the first n pixels of the window. */
  function DiscCount(radius: nat, n: nat): (c: nat)
    requires n <= WindowSize(radius)
    ensures c <= n
  {
    if n == 0 then 0
    else
      DiscCount(radius, n - 1)
      + (if InDisc(radius, OffsetX(radius, n - 1), OffsetY(radius, n - 1)) then 1 else 0)
  }

  /** Whether the p-th window pixel around (x, y) is a dark disc pixel. */
  predicate DarkDiscPixel(img: Image, x: int, y: int, radius: nat, p: nat)
    requires radius > 0
  {
    var dx, dy := OffsetX(radius, p), OffsetY(radius, p);
    InDisc(radius, dx, dy) && IsDark(img(x + dx, y + dy))
  }

  /** Number of dark disc pixels among the first n pixels of the window. */
  function DarkCount(img: Image, x: int, y: int, radius: nat, n: nat): (c: nat)
    requires n <= WindowSize(radius)
    ensures c <= DiscCount(radius, n)
  {
    if n == 0 then 0
    else
      DarkCount(img, x, y, radius, n - 1)
      + (if DarkDiscPixel(img, x, y, radius, n - 1) then 1 else 0)
  }

  /** The score for `dark` dark pixels out of `total` disc pixels. */
  function Score(dark: nat, total: nat): (s: real)
    requires dark <= total
    ensures 0.0 <= s <= 255.0
    ensures total == 0 ==> s == 0.0
    ensures total > 0 ==> (s == 0.0 <==> dark == 0)
    ensures total > 0 ==> (s == 255.0 <==> dark == total)
  {
    if total > 0 then (dark as real / total as real) * 255.0 else 0.0
  }

  /** At a fixed number of disc pixels, one more dark pixel always raises
      the score. */
  lemma ScoreStrictlyIncreasing(d1: nat, d2: nat, total: nat)
    requires d1 < d2 <= total
    ensures Score(d1, total) < Score(d2, total)
  {
    var t := total as real;
    assert d1 as real / t < d2 as real / t;
  }

  /** Darkness score of the bubble of the given radius centred at (x, y). */
  function BubbleDarkness(img: Image, x: int, y: int, radius: nat): (s: real)
    ensures 0.0 <= s <= 255.0
  {
    var n := WindowSize(radius);
    Score(DarkCount(img, x, y, radius, n), DiscCount(radius, n))
  }

  /** A bubble of radius at least one always has disc pixels: its centre. */
  lemma DiscNonEmpty(radius: nat)
    requires radius >= 1
    ensures DiscCount(radius, WindowSize(radius)) >= 1
  {
    var centre := WindowIndex(radius, 0, 0);
    WindowIndexRoundTrip(radius, 0, 0);
    DiscCountAtLeastOne(radius, centre, WindowSize(radius));
  }

  lemma {:induction false} DiscCountAtLeastOne(radius: nat, p: nat, n: nat)
    requires p < n <= WindowSize(radius)
    requires radius > 0 && InDisc(radius, OffsetX(radius, p), OffsetY(radius, p))
    ensures DiscCount(radius, n) >= 1
  {
    if n - 1 != p {
      DiscCountAtLeastOne(radius, p, n - 1);
    }
  }

  /** Whether the two images have the same colour at offset (dx, dy) from (x, y). */
  predicate SameShadeAt(img1: Image, img2: Image, x: int, y: int, dx: int, dy: int)
  {
    SameShade(img1(x + dx, y + dy), img2(x + dx, y + dy))
  }

  /** The score depends only on the colour channels of the disc pixels of
      the window: pixels outside the disc, and alpha everywhere, are never
      looked at. */
  lemma DarknessDependsOnlyOnDisc(img1: Image, img2: Image, x: int, y: int, radius: nat)
    requires forall dx, dy :: InWindow(radius, dx, dy) && InDisc(radius, dx, dy) ==>
      SameShadeAt(img1, img2, x, y, dx, dy)
    ensures BubbleDarkness(img1, x, y, radius) == BubbleDarkness(img2, x, y, radius)
  {
    DarkCountDependsOnlyOnDisc(img1, img2, x, y, radius, WindowSize(radius));
  }

  lemma {:induction false} DarkCountDependsOnlyOnDisc(img1: Image, img2: Image, x: int, y: int, radius: nat, n: nat)
    requires n <= WindowSize(radius)
    requires forall dx, dy :: InWindow(radius, dx, dy) && InDisc(radius, dx, dy) ==>
      SameShadeAt(img1, img2, x, y, dx, dy)
    ensures DarkCount(img1, x, y, radius, n) == DarkCount(img2, x, y, radius, n)
  {
    if n > 0 {
      DarkCountDependsOnlyOnDisc(img1, img2, x, y, radius, n - 1);
      OffsetsRoundTrip(radius, n - 1);
      var dx, dy := OffsetX(radius, n - 1), OffsetY(radius, n - 1);
      if InDisc(radius, dx, dy) {
        assert SameShadeAt(img1, img2, x, y, dx, dy);
      }
    }
  }

  /** A bubble whose every disc pixel is dark scores 255. */
  lemma FilledBubbleScoresFull(img: Image, x: int, y: int, radius: nat)
    requires radius >= 1
    requires forall dx, dy :: InWindow(radius, dx, dy) && InDisc(radius, dx, dy) ==> IsDark(img(x + dx, y + dy))
    ensures BubbleDarkness(img, x, y, radius) == 255.0
  {
    DiscNonEmpty(radius);
    FilledDarkCount(img, x, y, radius, WindowSize(radius));
  }

  lemma {:induction false} FilledDarkCount(img: Image, x: int, y: int, radius: nat, n: nat)
    requires n <= WindowSize(radius)
    requires forall dx, dy :: InWindow(radius, dx, dy) && InDisc(radius, dx, dy) ==> IsDark(img(x + dx, y + dy))
    ensures DarkCount(img, x, y, radius, n) == DiscCount(radius, n)
  {
    if n > 0 {
      FilledDarkCount(img, x, y, radius, n - 1);
      OffsetsRoundTrip(radius, n - 1);
    }
  }

  /** A bubble with no dark disc pixel scores 0. */
  lemma BlankBubbleScoresZero(img: Image, x: int, y: int, radius: nat)
    requires forall dx, dy :: InWindow(radius, dx, dy) && InDisc(radius, dx, dy) ==> !IsDark(img(x + dx, y + dy))
    ensures BubbleDarkness(img, x, y, radius) == 0.0
  {
    BlankDarkCount(img, x, y, radius, WindowSize(radius));
  }

  lemma {:induction false} BlankDarkCount(img: Image, x: int, y: int, radius: nat, n: nat)
    requires n <= WindowSize(radius)
    requires forall dx, dy :: InWindow(radius, dx, dy) && InDisc(radius, dx, dy) ==> !IsDark(img(x + dx, y + dy))
    ensures DarkCount(img, x, y, radius, n) == 0
  {
    if n > 0 {
      BlankDarkCount(img, x, y, radius, n - 1);
      OffsetsRoundTrip(radius, n - 1);
    }
  }

  /** The scanning loop of the reader: walks the window pixel by pixel,
      row by row, counting disc pixels and the dark ones among them. */
  method GetBubbleDarkness(img: Image, x: int, y: int, radius: nat) returns (s: real)
    ensures s == BubbleDarkness(img, x, y, radius)
  {
    var size := (2 * radius) * (2 * radius);
    var darkPixels: nat := 0;
    var totalPixels: nat := 0;
    var p: nat := 0;
    while p < size
      invariant p <= size
      invariant totalPixels == DiscCount(radius, p)
      invariant darkPixels == DarkCount(img, x, y, radius, p)
    {
      var relX := p % (2 * radius) - radius;
      var relY := p / (2 * radius) - radius;
      if relX * relX + relY * relY <= radius * radius {
        totalPixels := totalPixels + 1;
        var px := img(x + relX, y + relY);
        var grayscale := ((px.r + px.g + px.b) as real) / 3.0;
        if grayscale < DARKNESS_THRESHOLD as real {
          darkPixels := darkPixels + 1;
        }
      }
      p := p + 1;
    }
    s := if totalPixels > 0 then (darkPixels as real / totalPixels as real) * 255.0 else 0.0;
  }
}
