/** example.py: one key's image state, the stand-alone key image builder and
    the key-change callback. */
module Example {
  import opened Results
  import opened Imaging
  import opened Encoding
  import opened StreamDeck

  /** Python's truth test on the caption: `None` and the empty string are false. */
  predicate Truthy(text: Option<string>) {
    text.Some? && text.value != ""
  }

  /** Where `_overlay_text` draws the label. */
  const Origin := Anchor(0, 0)

  /** The image after `_transfer_image` has drawn the label, if any, into it. */
  function Labelled(g: Grid<Rgb>, paint: Painter, text: Option<string>): (d: Grid<Rgb>)
    ensures SameShape(d, g)
    ensures !Truthy(text) ==> d == g
  {
    if Truthy(text) then DrawText(g, paint, Origin, text.value) else g
  }

  /** The state of one key: its image, stored as a width×height buffer that
      the methods overwrite in place, and its label. */
  class Key {
    const deck: Deck
    const key: nat
    const order: string
    /** The font: how drawing the label changes a pixel. */
    const paint: Painter
    var text: Option<string>
    /** `image[x, y]` is PIL's pixel (x, y). */
    const image: array2<Rgb>

    /** The stored image as rows of pixels. */
    function Pixels(): (g: Grid<Rgb>)
      reads image
      ensures IsGrid(g, image.Length0, image.Length1)
      ensures forall y, x :: 0 <= y < image.Length1 && 0 <= x < image.Length0 ==> g[y][x] == image[x, y]
    {
      seq(image.Length1, y requires 0 <= y < image.Length1 reads image =>
        seq(image.Length0, x requires 0 <= x < image.Length0 reads image => image[x, y]))
    }

    /** A key with no label and a black image of the size the device reports. */
    constructor (deck: Deck, keyIndex: nat, paint: Painter)
      ensures this.deck == deck && key == keyIndex && this.paint == paint
      ensures text == None && order == deck.format.order
      ensures fresh(image) && image.Length0 == deck.format.width && image.Length1 == deck.format.height
      ensures Pixels() == Solid(deck.format.width, deck.format.height, Black)
    {
      this.deck := deck;
      key := keyIndex;
      this.paint := paint;
      text := None;
      order := deck.format.order;
      image := new Rgb[deck.format.width, deck.format.height]((x, y) => Black);
      new;
      GridEquality(Pixels(), Solid(image.Length0, image.Length1, Black), image.Length0, image.Length1);
    }

    /** Draws `caption` into the stored image. */
    method OverlayText(caption: string)
      modifies image
      ensures Pixels() == DrawText(old(Pixels()), paint, Origin, caption)
    {
      forall x, y | 0 <= x < image.Length0 && 0 <= y < image.Length1 {
        image[x, y] := paint(Origin, caption, x, y, image[x, y]);
      }
      GridEquality(Pixels(), DrawText(old(Pixels()), paint, Origin, caption), image.Length0, image.Length1);
    }

    /** Draws the label if there is one, then sends the encoded image to the
        device; the stored image keeps the label but is not mirrored. */
    method TransferImage() returns (result: Outcome<LookupError>)
      modifies image, deck
      ensures Pixels() == Labelled(old(Pixels()), paint, text)
      ensures var bytes := Encode(Pixels(), order);
        && result == (if bytes.Success? then Pass else Fail(bytes.error))
        && deck.log == old(deck.log) + (if bytes.Success? then [Call.SetKeyImage(key, bytes.value)] else [])
    {
      if Truthy(text) {
        OverlayText(text.value);
      }
      var bytes := Encode(Pixels(), order);
      if bytes.Failure? {
        return Fail(bytes.error);
      }
      deck.SetKeyImage(key, bytes.value);
      return Pass;
    }

    /** Stores the label and transfers; a previously drawn label stays in the
        image. */
    method SetText(caption: Option<string>) returns (result: Outcome<LookupError>)
      modifies this, image, deck
      ensures text == caption
      ensures Pixels() == Labelled(old(Pixels()), paint, caption)
      ensures var bytes := Encode(Pixels(), order);
        && result == (if bytes.Success? then Pass else Fail(bytes.error))
        && deck.log == old(deck.log) + (if bytes.Success? then [Call.SetKeyImage(key, bytes.value)] else [])
    {
      text := caption;
      result := TransferImage();
    }

    /** Pastes `color` over the whole image, then transfers it with the label
        redrawn; the label and the image size are kept. */
    method SetColor(color: Rgb) returns (result: Outcome<LookupError>)
      modifies image, deck
      ensures Pixels() == Labelled(Solid(image.Length0, image.Length1, color), paint, text)
      ensures var bytes := Encode(Pixels(), order);
        && result == (if bytes.Success? then Pass else Fail(bytes.error))
        && deck.log == old(deck.log) + (if bytes.Success? then [Call.SetKeyImage(key, bytes.value)] else [])
      ensures !Truthy(text) && ValidOrder(order) ==>
                deck.log == old(deck.log) + [Call.SetKeyImage(key, Tile(Samples(Permuted(color, LookupOrder(order).value)), image.Length0 * image.Length1))]
    {
      forall x, y | 0 <= x < image.Length0 && 0 <= y < image.Length1 {
        image[x, y] := color;
      }
      GridEquality(Pixels(), Solid(image.Length0, image.Length1, color), image.Length0, image.Length1);
      result := TransferImage();
      if !Truthy(text) && ValidOrder(order) {
        EncodeUniform(Pixels(), image.Length0, image.Length1, color, order);
      }
    }

    /** Removes the label and blacks out the image, which also erases any
        label drawn into it earlier. */
    method Clear() returns (result: Outcome<LookupError>)
      modifies this, image, deck
      ensures text == None
      ensures Pixels() == Solid(image.Length0, image.Length1, Black)
      ensures var bytes := Encode(Solid(image.Length0, image.Length1, Black), order);
        && result == (if bytes.Success? then Pass else Fail(bytes.error))
        && deck.log == old(deck.log) + (if bytes.Success? then [Call.SetKeyImage(key, bytes.value)] else [])
      ensures ValidOrder(order) ==>
                deck.log == old(deck.log) + [Call.SetKeyImage(key, Tile<Byte>([0, 0, 0], image.Length0 * image.Length1))]
    {
      text := None;
      result := SetColor(Black);
      if ValidOrder(order) {
        assert Samples(Permuted(Black, LookupOrder(order).value)) == [0, 0, 0];
      }
    }
  }

  predicate IsDigit(c: char) {
    '0' <= c <= '9'
  }

  /** A run of decimal digits with no leading zero (a lone "0" is allowed). */
  predicate IsNumeral(s: string) {
    |s| > 0 && (forall i :: 0 <= i < |s| ==> IsDigit(s[i])) && (|s| > 1 ==> s[0] != '0')
  }

  /** The number a run of decimal digits stands for. */
  function DigitsValue(s: string): nat
    requires forall i :: 0 <= i < |s| ==> IsDigit(s[i])
  {
    if s == [] then 0
    else
      assert IsDigit(s[|s| - 1]);
      DigitsValue(s[..|s| - 1]) * 10 + (s[|s| - 1] as int - '0' as int)
  }

  /** The decimal text of an integer, as `"{}".format(n)` writes it: a minus
      sign for a negative number, then the digits of its magnitude. */
  function DecimalString(n: int): (s: string)
    ensures n >= 0 ==> IsNumeral(s) && DigitsValue(s) == n
    ensures n < 0 ==> |s| > 1 && s[0] == '-' && IsNumeral(s[1..]) && DigitsValue(s[1..]) == -n
    decreases if n < 0 then 1 - n else n
  {
    if n < 0 then
      var t := DecimalString(-n);
      assert ("-" + t)[1..] == t;
      "-" + t
    else if n < 10 then [(n + '0' as int) as char]
    else
      var p := DecimalString(n / 10);
      var s := p + [(n % 10 + '0' as int) as char];
      assert s[..|s| - 1] == p;
      s
  }

  /** The label `get_key_image` draws. */
  function KeyLabel(key: int): string {
    "Key " + DecimalString(key)
  }

  /** Where `get_key_image` draws its caption: ten pixels in, twenty up from
      the bottom edge. */
  function LabelAnchor(height: nat): Anchor {
    Anchor(10, height - 20)
  }

  /** The image `get_key_image` encodes: a red key with its label drawn on. */
  function KeyImage(format: ImageFormat, key: int, paint: Painter): (g: Grid<Rgb>)
    ensures IsGrid(g, format.width, format.height)
    ensures forall y, x :: 0 <= y < format.height && 0 <= x < format.width ==>
                           g[y][x] == paint(LabelAnchor(format.height), KeyLabel(key), x, y, Red)
  {
    DrawText(Solid(format.width, format.height, Red), paint, LabelAnchor(format.height), KeyLabel(key))
  }

  /** `get_key_image(deck, key, state)`: the bytes of a red key labelled
      "Key <key>"; `state` is not used. */
  function GetKeyImage(deck: Deck, key: int, state: bool, paint: Painter): (r: Result<seq<Byte>, LookupError>)
    ensures r.Success? <==> ValidOrder(deck.format.order)
    ensures r.Success? ==> |r.value| == deck.format.width * deck.format.height * 3
  {
    var format := deck.format;
    var image := KeyImage(format, key, paint);
    var r := Encode(image, format.order);
    if r.Success? then
      EncodeLength(image, format.width, format.height, format.order);
      r
    else
      r
  }

  /** Byte k of the group for pixel (x, y) is band order[k] of the red
      background at (width-1-x, y) as the label painted it. */
  lemma GetKeyImageAt(deck: Deck, key: int, state: bool, paint: Painter, y: nat, x: nat, k: nat)
    requires ValidOrder(deck.format.order)
    requires y < deck.format.height && x < deck.format.width && k < 3
    ensures SampleIndex(deck.format.width, y, x, k) < |GetKeyImage(deck, key, state, paint).value|
    ensures GetKeyImage(deck, key, state, paint).value[SampleIndex(deck.format.width, y, x, k)]
         == Band(paint(LabelAnchor(deck.format.height), KeyLabel(key), deck.format.width - 1 - x, y, Red),
                 ChannelOf(deck.format.order[k]))
  {
    var f := deck.format;
    EncodeAt(KeyImage(f, key, paint), f.width, f.height, f.order, y, x, k);
  }

  /** The last key is the exit key. */
  predicate IsExitKey(keyCount: nat, key: int) {
    key == keyCount - 1
  }

  /** `key_change_callback`: pressing or releasing the last key resets and
      closes the device; any other key sends nothing. No key image changes. */
  method KeyChangeCallback(deck: Deck, key: int, state: bool)
    modifies deck
    ensures IsExitKey(deck.keyCount, key) ==> deck.log == old(deck.log) + [Call.Reset, Call.Close]
    ensures !IsExitKey(deck.keyCount, key) ==> deck.log == old(deck.log)
  {
    if key == deck.keyCount - 1 {
      deck.Reset();
      deck.Close();
    }
  }
}
