/** The part of PIL's RGB image model that the key pipeline uses: an image
    is a grid of rows, top to bottom, each row a sequence of pixels, left to
    right, so that PIL's pixel (x, y) is `g[y][x]`. */
module Imaging {

  /** One 8-bit sample. */
  type Byte = x: int | 0 <= x < 256

  datatype Rgb = Rgb(r: Byte, g: Byte, b: Byte)

  const Black := Rgb(0, 0, 0)
  const Red := Rgb(255, 0, 0)

  /** The three bands of an RGB image, as `split()` returns them. */
  datatype Channel = R | G | B

  function Band(p: Rgb, c: Channel): Byte {
    match c
    case R => p.r
    case G => p.g
    case B => p.b
  }

  /** The samples of one pixel in the order `tobytes()` writes them. */
  function Samples(p: Rgb): seq<Byte> {
    [p.r, p.g, p.b]
  }

  type Grid<T> = seq<seq<T>>

  /** `g` is an image of `w` columns and `h` rows. */
  predicate IsGrid<T>(g: Grid<T>, w: nat, h: nat) {
    |g| == h && forall y :: 0 <= y < h ==> |g[y]| == w
  }

  predicate SameShape<T, U>(a: Grid<T>, b: Grid<U>) {
    |a| == |b| && forall y :: 0 <= y < |a| ==> |a[y]| == |b[y]|
  }

  /** Two images of one size with the same pixels are the same image. */
  lemma GridEquality<T>(a: Grid<T>, b: Grid<T>, w: nat, h: nat)
    requires IsGrid(a, w, h) && IsGrid(b, w, h)
    requires forall y, x :: 0 <= y < h && 0 <= x < w ==> a[y][x] == b[y][x]
    ensures a == b
  {
    forall y | 0 <= y < h
      ensures a[y] == b[y]
    {
      assert forall x :: 0 <= x < w ==> a[y][x] == b[y][x];
    }
  }

  /** Every pixel of `g` is `c`. */
  predicate IsUniform(g: Grid<Rgb>, c: Rgb) {
    forall y, x :: 0 <= y < |g| && 0 <= x < |g[y]| ==> g[y][x] == c
  }

  /** `Image.new("RGB", (w, h), c)`, and equally the result of pasting the
      colour `c` over the whole of any w×h image. */
  function Solid(w: nat, h: nat, c: Rgb): (g: Grid<Rgb>)
    ensures IsGrid(g, w, h) && IsUniform(g, c)
  {
    seq(h, _ => seq(w, _ => c))
  }

  /** `transpose(Image.FLIP_LEFT_RIGHT)`: a new image whose pixel (x, y) is
      the original's pixel (width-1-x, y). */
  function Mirror<T>(g: Grid<T>): (m: Grid<T>)
    ensures SameShape(m, g)
    ensures forall y, x :: 0 <= y < |g| && 0 <= x < |g[y]| ==> m[y][x] == g[y][|g[y]| - 1 - x]
  {
    seq(|g|, y requires 0 <= y < |g| => seq(|g[y]|, x requires 0 <= x < |g[y]| => g[y][|g[y]| - 1 - x]))
  }

  /** Flipping left to right twice gives back the original image. */
  lemma {:induction false} MirrorInvolution<T>(g: Grid<T>)
    ensures Mirror(Mirror(g)) == g
  {
    var m := Mirror(g);
    var mm := Mirror(m);
    forall y | 0 <= y < |g|
      ensures mm[y] == g[y]
    {
      MirrorRowTwice(g, m, mm, y);
    }
  }

  /** One row of the double flip: each pixel comes back to its place. */
  lemma MirrorRowTwice<T>(g: Grid<T>, m: Grid<T>, mm: Grid<T>, y: nat)
    requires m == Mirror(g) && mm == Mirror(m) && y < |g|
    ensures mm[y] == g[y]
  {
    var w := |g[y]|;
    assert |m[y]| == w && |mm[y]| == w;
    forall x | 0 <= x < w
      ensures mm[y][x] == g[y][x]
    {
      var x' := w - 1 - x;
      assert mm[y][x] == m[y][x'];
      assert m[y][x'] == g[y][w - 1 - x'];
    }
  }

  /** One band of `split()`: a single-channel image of the same shape. */
  function Plane(g: Grid<Rgb>, c: Channel): (p: Grid<Byte>)
    ensures SameShape(p, g)
    ensures forall y, x :: 0 <= y < |g| && 0 <= x < |g[y]| ==> p[y][x] == Band(g[y][x], c)
  {
    seq(|g|, y requires 0 <= y < |g| => seq(|g[y]|, x requires 0 <= x < |g[y]| => Band(g[y][x], c)))
  }

  /** `Image.merge("RGB", (p0, p1, p2))`: band k of the result is `pk`. */
  function Merge(p0: Grid<Byte>, p1: Grid<Byte>, p2: Grid<Byte>): (g: Grid<Rgb>)
    requires SameShape(p1, p0) && SameShape(p2, p0)
    ensures SameShape(g, p0)
    ensures forall y, x :: 0 <= y < |p0| && 0 <= x < |p0[y]| ==>
      Samples(g[y][x]) == [p0[y][x], p1[y][x], p2[y][x]]
  {
    seq(|p0|, y requires 0 <= y < |p0| =>
      seq(|p0[y]|, x requires 0 <= x < |p0[y]| => Rgb(p0[y][x], p1[y][x], p2[y][x])))
  }

  /** `tobytes()` of one row: three samples per pixel, left to right. */
  function RowBytes(row: seq<Rgb>): (s: seq<Byte>)
    ensures |s| == 3 * |row|
  {
    if row == [] then [] else Samples(row[0]) + RowBytes(row[1..])
  }

  /** `tobytes()` of an RGB image: the rows top to bottom, pixel-interleaved. */
  function ToBytes(g: Grid<Rgb>): seq<Byte> {
    if g == [] then [] else RowBytes(g[0]) + ToBytes(g[1..])
  }

  /** Position of sample k of pixel (x, y) in the serialisation of a w-wide image. */
  function SampleIndex(w: nat, y: nat, x: nat, k: nat): nat {
    3 * (y * w + x) + k
  }

  lemma SampleIndexBound(w: nat, h: nat, y: nat, x: nat, k: nat)
    requires y < h && x < w && k < 3
    ensures SampleIndex(w, y, x, k) < 3 * w * h
  {
    assert y * w + x < (y + 1) * w;
    assert (y + 1) * w <= h * w;
  }

  lemma {:induction false} RowBytesAt(row: seq<Rgb>, x: nat, k: nat)
    requires x < |row| && k < 3
    ensures RowBytes(row)[3 * x + k] == Samples(row[x])[k]
  {
    if x > 0 {
      RowBytesAt(row[1..], x - 1, k);
    }
  }

  lemma {:induction false} ToBytesLength(g: Grid<Rgb>, w: nat)
    requires IsGrid(g, w, |g|)
    ensures |ToBytes(g)| == 3 * w * |g|
  {
    if g != [] {
      assert IsGrid(g[1..], w, |g| - 1);
      ToBytesLength(g[1..], w);
      assert 3 * w * |g| == 3 * w + 3 * w * (|g| - 1);
    }
  }

  /** The byte at `SampleIndex(w, y, x, k)` is sample k of pixel (x, y). */
  lemma {:induction false} ToBytesAt(g: Grid<Rgb>, w: nat, y: nat, x: nat, k: nat)
    requires IsGrid(g, w, |g|) && y < |g| && x < w && k < 3
    ensures |ToBytes(g)| == 3 * w * |g|
    ensures SampleIndex(w, y, x, k) < |ToBytes(g)|
    ensures ToBytes(g)[SampleIndex(w, y, x, k)] == Samples(g[y][x])[k]
  {
    ToBytesLength(g, w);
    SampleIndexBound(w, |g|, y, x, k);
    if y == 0 {
      RowBytesAt(g[0], x, k);
    } else {
      assert IsGrid(g[1..], w, |g| - 1);
      ToBytesAt(g[1..], w, y - 1, x, k);
      assert y * w == (y - 1) * w + w;
      assert SampleIndex(w, y, x, k) == 3 * w + SampleIndex(w, y - 1, x, k);
    }
  }

  /** `t` repeated n times. */
  function Tile<T>(t: seq<T>, n: nat): (s: seq<T>)
    ensures |s| == |t| * n
  {
    if n == 0 then [] else t + Tile(t, n - 1)
  }

  lemma {:induction false} TileAppend<T>(t: seq<T>, a: nat, b: nat)
    ensures Tile(t, a + b) == Tile(t, a) + Tile(t, b)
  {
    if a > 0 {
      TileAppend(t, a - 1, b);
    }
  }

  /** A single-colour image serialises to that colour's samples, once per pixel. */
  lemma {:induction false} ToBytesUniform(g: Grid<Rgb>, w: nat, c: Rgb)
    requires IsGrid(g, w, |g|) && IsUniform(g, c)
    ensures ToBytes(g) == Tile(Samples(c), w * |g|)
  {
    if g != [] {
      RowBytesUniform(g[0], c);
      assert IsGrid(g[1..], w, |g| - 1) && IsUniform(g[1..], c);
      ToBytesUniform(g[1..], w, c);
      assert w * |g| == w + w * (|g| - 1);
      TileAppend(Samples(c), w, w * (|g| - 1));
    }
  }

  lemma {:induction false} RowBytesUniform(row: seq<Rgb>, c: Rgb)
    requires forall x :: 0 <= x < |row| ==> row[x] == c
    ensures RowBytes(row) == Tile(Samples(c), |row|)
  {
    if row != [] {
      RowBytesUniform(row[1..], c);
    }
  }

  /** Where text is drawn: PIL's `xy` argument of `draw.text`. */
  datatype Anchor = Anchor(x: int, y: int)

  /** The font rasteriser: the colour pixel (x, y) takes when `text` is drawn
      at the anchor over a pixel of the given colour. */
  type Painter = (Anchor, string, nat, nat, Rgb) -> Rgb

  /** `ImageDraw.Draw(g).text(at, text, ...)`: the image keeps its size and
      each pixel is repainted from its position and its previous colour. */
  function DrawText(g: Grid<Rgb>, paint: Painter, at: Anchor, text: string): (d: Grid<Rgb>)
    ensures SameShape(d, g)
    ensures forall y, x :: 0 <= y < |g| && 0 <= x < |g[y]| ==> d[y][x] == paint(at, text, x, y, g[y][x])
  {
    seq(|g|, y requires 0 <= y < |g| =>
      seq(|g[y]|, x requires 0 <= x < |g[y]| => paint(at, text, x, y, g[y][x])))
  }
}
