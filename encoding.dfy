/** The key-image encoding of example.py: mirror the image left to right,
    split it into its R, G and B bands, pick the bands in the order the device
    names them through the dictionary `{"R": r, "G": g, "B": b}`, merge them
    into a new RGB image and serialise it with `tobytes()`. */
module Encoding {
  import opened Results
  import opened Imaging

  /** What the dictionary lookup `rgb[order[k]]` raises. */
  datatype LookupError =
    | IndexError(position: nat)  // the order string has no character k
    | KeyError(name: char)       // order[k] is not a key of the dictionary

  predicate IsBandName(ch: char) {
    ch == 'R' || ch == 'G' || ch == 'B'
  }

  function ChannelOf(ch: char): Channel
    requires IsBandName(ch)
  {
    if ch == 'R' then R else if ch == 'G' then G else B
  }

  /** `rgb[order[k]]`. */
  function LookupBand(order: string, k: nat): Result<Channel, LookupError> {
    if k >= |order| then Failure(IndexError(k))
    else if IsBandName(order[k]) then Success(ChannelOf(order[k]))
    else Failure(KeyError(order[k]))
  }

  /** An order string all three lookups accept; characters after the third
      are never read. */
  predicate ValidOrder(order: string) {
    |order| >= 3 && forall k :: 0 <= k < 3 ==> IsBandName(order[k])
  }

  /** The three lookups, left to right; the first that fails raises. */
  function LookupOrder(order: string): (r: Result<seq<Channel>, LookupError>)
    ensures r.Success? <==> ValidOrder(order)
    ensures r.Success? ==> |r.value| == 3 && forall k :: 0 <= k < 3 ==> r.value[k] == ChannelOf(order[k])
    ensures r.Failure? ==>
              exists k :: 0 <= k < 3 &&
                          (forall j :: 0 <= j < k ==> j < |order| && IsBandName(order[j])) &&
                          (k < |order| ==> !IsBandName(order[k])) &&
                          r.error == (if k < |order| then KeyError(order[k]) else IndexError(k))
  {
    var c0 :- LookupBand(order, 0);
    var c1 :- LookupBand(order, 1);
    var c2 :- LookupBand(order, 2);
    Success([c0, c1, c2])
  }

  /** The colour `c` with its bands rearranged in the order `chans` names. */
  function Permuted(c: Rgb, chans: seq<Channel>): Rgb
    requires |chans| == 3
  {
    Rgb(Band(c, chans[0]), Band(c, chans[1]), Band(c, chans[2]))
  }

  /** The bytes `_transfer_image` and `get_key_image` send to the device. */
  function Encode(g: Grid<Rgb>, order: string): (r: Result<seq<Byte>, LookupError>)
    ensures r.Success? <==> ValidOrder(order)
    ensures r.Failure? ==> r.error == LookupOrder(order).error
  {
    var m := Mirror(g);
    var chans :- LookupOrder(order);
    Success(ToBytes(Merge(Plane(m, chans[0]), Plane(m, chans[1]), Plane(m, chans[2]))))
  }

  /** The image `Encode` serialises: the mirror with its bands reordered. */
  lemma MergedShape(g: Grid<Rgb>, w: nat, h: nat, chans: seq<Channel>)
    requires IsGrid(g, w, h) && |chans| == 3
    ensures var m := Mirror(g);
      var merged := Merge(Plane(m, chans[0]), Plane(m, chans[1]), Plane(m, chans[2]));
      IsGrid(merged, w, h) &&
      forall y, x :: 0 <= y < h && 0 <= x < w ==> merged[y][x] == Permuted(g[y][w - 1 - x], chans)
  {
  }

  /** The encoded buffer is always width*height*3 bytes long. */
  lemma EncodeLength(g: Grid<Rgb>, w: nat, h: nat, order: string)
    requires IsGrid(g, w, h) && ValidOrder(order)
    ensures |Encode(g, order).value| == w * h * 3
  {
    var chans := LookupOrder(order).value;
    MergedShape(g, w, h, chans);
    var m := Mirror(g);
    ToBytesLength(Merge(Plane(m, chans[0]), Plane(m, chans[1]), Plane(m, chans[2])), w);
  }

  /** Byte k of the group for pixel (x, y) is band order[k] of the stored
      pixel (width-1-x, y): the mirror and the reorder together. */
  lemma EncodeAt(g: Grid<Rgb>, w: nat, h: nat, order: string, y: nat, x: nat, k: nat)
    requires IsGrid(g, w, h) && ValidOrder(order)
    requires y < h && x < w && k < 3
    ensures |Encode(g, order).value| == w * h * 3
    ensures SampleIndex(w, y, x, k) < |Encode(g, order).value|
    ensures Encode(g, order).value[SampleIndex(w, y, x, k)] == Band(g[y][w - 1 - x], ChannelOf(order[k]))
  {
    EncodeLength(g, w, h, order);
    var chans := LookupOrder(order).value;
    MergedShape(g, w, h, chans);
    var m := Mirror(g);
    var merged := Merge(Plane(m, chans[0]), Plane(m, chans[1]), Plane(m, chans[2]));
    ToBytesAt(merged, w, y, x, k);
    assert Samples(Permuted(g[y][w - 1 - x], chans))[k] == Band(g[y][w - 1 - x], chans[k]);
  }

  /** A single-colour image encodes to the colour permuted by the order,
      repeated once per pixel. */
  lemma EncodeUniform(g: Grid<Rgb>, w: nat, h: nat, c: Rgb, order: string)
    requires IsGrid(g, w, h) && IsUniform(g, c) && ValidOrder(order)
    ensures Encode(g, order).value == Tile(Samples(Permuted(c, LookupOrder(order).value)), w * h)
  {
    var chans := LookupOrder(order).value;
    MergedShape(g, w, h, chans);
    var m := Mirror(g);
    var merged := Merge(Plane(m, chans[0]), Plane(m, chans[1]), Plane(m, chans[2]));
    ToBytesUniform(merged, w, Permuted(c, chans));
  }

  /** A 72×72 key filled blue, on a device whose order is "BGR", sends the
      group 255, 0, 0 for every pixel. */
  lemma BlueOnBgrKey()
    ensures Encode(Solid(72, 72, Rgb(0, 0, 255)), "BGR") == Success(Tile<Byte>([255, 0, 0], 72 * 72))
  {
    EncodeUniform(Solid(72, 72, Rgb(0, 0, 255)), 72, 72, Rgb(0, 0, 255), "BGR");
    assert LookupOrder("BGR").value == [B, G, R];
    assert Samples(Permuted(Rgb(0, 0, 255), [B, G, R])) == [255, 0, 0];
  }

  /** An order that names each band exactly once. */
  predicate IsPermutationOrder(order: string) {
    ValidOrder(order) && order[0] != order[1] && order[0] != order[2] && order[1] != order[2]
  }

  /** Where band c sits in each 3-byte group. */
  function Position(order: string, c: Channel): (k: nat)
    requires IsPermutationOrder(order)
    ensures k < 3 && ChannelOf(order[k]) == c
  {
    if ChannelOf(order[0]) == c then 0
    else if ChannelOf(order[1]) == c then 1
    else
      assert {ChannelOf(order[0]), ChannelOf(order[1]), ChannelOf(order[2])} == {R, G, B};
      assert c.R? || c.G? || c.B?;
      2
  }

  /** The byte that carries band c of pixel (x, y) of the stored image. */
  function Slot(w: nat, h: nat, order: string, y: nat, x: nat, c: Channel): (i: nat)
    requires IsPermutationOrder(order) && y < h && x < w
    ensures i < 3 * w * h
  {
    SampleIndexBound(w, h, y, w - 1 - x, Position(order, c));
    SampleIndex(w, y, w - 1 - x, Position(order, c))
  }

  /** Rebuilds the stored image from the bytes sent to the device. */
  function Decode(bytes: seq<Byte>, w: nat, h: nat, order: string): (g: Grid<Rgb>)
    requires IsPermutationOrder(order) && |bytes| == 3 * w * h
    ensures IsGrid(g, w, h)
  {
    seq(h, y requires 0 <= y < h =>
      seq(w, x requires 0 <= x < w =>
        Rgb(bytes[Slot(w, h, order, y, x, R)], bytes[Slot(w, h, order, y, x, G)], bytes[Slot(w, h, order, y, x, B)])))
  }

  /** When the order names every band once, the device receives the whole
      image: decoding the sent bytes gives back the stored pixels. */
  lemma DecodeEncode(g: Grid<Rgb>, w: nat, h: nat, order: string)
    requires IsGrid(g, w, h) && IsPermutationOrder(order)
    ensures Encode(g, order).Success? && |Encode(g, order).value| == 3 * w * h
    ensures Decode(Encode(g, order).value, w, h, order) == g
  {
    var bytes := Encode(g, order).value;
    EncodeLength(g, w, h, order);
    var d := Decode(bytes, w, h, order);
    forall y | 0 <= y < h
      ensures d[y] == g[y]
    {
      forall x | 0 <= x < w
        ensures d[y][x] == g[y][x]
      {
        forall c: Channel
          ensures bytes[Slot(w, h, order, y, x, c)] == Band(g[y][x], c)
        {
          EncodeAt(g, w, h, order, y, w - 1 - x, Position(order, c));
        }
        assert Band(d[y][x], R) == Band(g[y][x], R);
        assert Band(d[y][x], G) == Band(g[y][x], G);
        assert Band(d[y][x], B) == Band(g[y][x], B);
      }
    }
  }

  /** Hence two different images of one size never send the same bytes. */
  lemma EncodeInjective(g1: Grid<Rgb>, g2: Grid<Rgb>, w: nat, h: nat, order: string)
    requires IsGrid(g1, w, h) && IsGrid(g2, w, h) && IsPermutationOrder(order)
    requires Encode(g1, order) == Encode(g2, order)
    ensures g1 == g2
  {
    DecodeEncode(g1, w, h, order);
    DecodeEncode(g2, w, h, order);
  }
}
