# Key images for a StreamDeck: a Dafny model of `example.py`

`example.py` drives a StreamDeck, a keypad whose keys each have a small
colour display. A `Key` object holds the image of one key:

- an RGB buffer of the width and height the device reports, black at first;
- an optional text label;
- the channel order the device wants, such as `"BGR"`.

`set_color` pastes a colour over the whole buffer. `set_text` stores a label,
and `clear` removes the label and blacks the buffer out. After each of these,
`_transfer_image` prepares the image and sends it to the device:

1. It draws the label, if there is one, into the stored buffer.
2. It mirrors the image left to right into a new image.
3. It splits the mirror into R, G and B bands and picks them in the device's
   order through the dictionary `{"R": r, "G": g, "B": b}`.
4. It merges the picked bands and serialises them with `tobytes()`.
5. It hands the bytes to `set_key_image`.

`get_key_image` builds the same bytes for a red key labelled "Key n".
`key_change_callback` resets and closes the device when the last key changes
state.

The model has five modules:

- `Imaging` holds the parts of PIL the pipeline uses. An image is a grid of
  rows of pixels, and PIL's pixel (x, y) is `g[y][x]`. The module covers
  `Image.new` and `paste` of a colour (`Solid`), `transpose(FLIP_LEFT_RIGHT)`
  (`Mirror`), `split` (`Plane`), `merge` (`Merge`), `tobytes` (`ToBytes`) and
  text drawing (`DrawText`).
- `Encoding` holds the dictionary lookup and the whole encoding (`Encode`).
  It also holds the inverse, `Decode`, for orders that name each band once.
- `StreamDeck` is a fake device. Its `set_key_image`, `reset` and `close`
  only append to a call log.
- `Example` holds the `Key` class, `get_key_image` and `key_change_callback`.
  `Key` keeps its image in an `array2` that its methods overwrite in place.
  Every mutator states the new image, the new label and the calls added to
  the device log.
- `Results` holds Option, Result and Outcome. An exception the source lets
  propagate is a `Failure` or `Fail` value.

Behaviour of the code that the model keeps:

- `tobytes()` interleaves the pixels. For each row, left to right, it writes
  the three bytes `order[0]`, `order[1]`, `order[2]` of the mirrored pixel.
  A plane-by-plane layout, one band after another, is not what the code
  produces, and the model follows the code.
- The label is drawn into the stored buffer itself. Calling `set_text(None)`
  therefore leaves an earlier label visible in the image and in the bytes sent.
  So does a second `set_text`, which draws over the first label. Only
  `set_color` and `clear` repaint the buffer. The model states this in
  `Key.SetText`.
- The order string is not checked when a `Key` is created. Each transfer
  looks up `order[0]`, `order[1]` and `order[2]` in turn. A string shorter
  than 3 raises `IndexError`, and a character other than R, G or B raises
  `KeyError`. Characters after the third are never read. An order such as
  `"RRR"` is accepted and sends the red band three times.
- When the lookup fails, the label has already been drawn and the new text or
  colour is already stored, but nothing is sent to the device.
- The callback exits on press and on release of the last key alike, and it
  changes no key image.

## Model

| member | source | states |
|---|---|---|
| `Example.Key.constructor` | example.py:10-23 | a new key has no label, takes its order from the device, and holds a fresh width×height image (the size the device reports) whose every pixel is black |
| `Example.Key.OverlayText` | example.py:25-30 | drawing the label changes the stored image in place: the size is kept and every pixel is repainted by the font from its position and previous colour |
| `Example.Labelled` | example.py:33-34 | the label is drawn only when it is truthy; `None` or an empty label leaves the image as it was; the size never changes |
| `Example.Key.TransferImage` | example.py:32-44 | the stored image afterwards is the old one with the label drawn on, not mirrored; the device log gains exactly one `set_key_image(key, Encode(image, order))`, or nothing and a lookup error when the order is bad |
| `Example.Key.SetText` | example.py:46-48 | stores the new label, draws it into the image (a label drawn earlier stays), and sends the encoded image |
| `Example.Key.SetColor` | example.py:50-52 | the image becomes the solid colour of the same size with the current label drawn on; the label is unchanged; with no label, the bytes sent are the colour permuted by the order, repeated once per pixel |
| `Example.Key.Clear` | example.py:54-56 | the label is gone and the whole image is black, erasing any label drawn before; the bytes sent are those of a black key that never had a label, that is three zero bytes per pixel |
| `Imaging.Solid` | example.py:23 | `Image.new` and a full-size `paste` give a width×height image all of whose pixels are the colour |
| `Imaging.DrawText` | example.py:29-30 | text drawing keeps the image shape and repaints each pixel from its position, the anchor, the text and its previous colour |
| `Imaging.Mirror` | example.py:38 | the flip is a new image of the same shape whose pixel (x, y) is the original's pixel (width-1-x, y) |
| `Imaging.MirrorInvolution` | example.py:38 | flipping left to right twice gives back the original grid |
| `Imaging.Plane` | example.py:38 | a band from `split()` has the image's shape and holds that band of each pixel |
| `Imaging.Merge` | example.py:43 | `merge` builds an image of the bands' shape whose pixel has band k taken from the k-th given band |
| `Imaging.RowBytes` | example.py:43 | one row serialises to three bytes per pixel |
| `Imaging.ToBytesLength` | example.py:43 | a width×height image serialises to width*height*3 bytes |
| `Imaging.ToBytesAt` | example.py:43 | byte 3*(y*width+x)+k of the serialisation is band k of pixel (x, y): the bytes are pixel-interleaved and row-major |
| `Imaging.ToBytesUniform` | example.py:43 | a single-colour image serialises to that colour's three bytes repeated once per pixel |
| `Encoding.LookupOrder` | example.py:42-43 | the three lookups succeed exactly when the order has at least three characters and the first three are each R, G or B; the k-th band picked is the one `order[k]` names; on failure the error is the first failing lookup's `IndexError` or `KeyError` |
| `Encoding.Encode` | example.py:38-43 | encoding succeeds exactly when the order is valid, and otherwise fails with the lookup's error |
| `Encoding.EncodeLength` | example.py:38-43 | the encoded buffer has length width*height*3 |
| `Encoding.EncodeAt` | example.py:38-43 | byte 3*(y*width+x)+k is band `order[k]` of the stored pixel (width-1-x, y): the mirror and the reorder combined |
| `Encoding.EncodeUniform` | example.py:42-43 | a single-colour image encodes to the colour permuted by the order, once per pixel |
| `Encoding.BlueOnBgrKey` | example.py:38-43 | a 72×72 blue key on a "BGR" device sends the group 255, 0, 0 for all 5184 pixels |
| `Encoding.DecodeEncode` | example.py:38-43 | when the order names each band once, decoding the sent bytes gives back the stored image |
| `Encoding.EncodeInjective` | example.py:38-43 | with such an order, two different images of one size never send the same bytes |
| `Example.DecimalString` | example.py:75 | the text `"{}".format(n)` puts in the label: for n ≥ 0 a run of decimal digits with no leading zero whose value is n; for n < 0 a minus sign followed by such digits for -n |
| `Example.KeyImage` | example.py:66-75 | `get_key_image` draws on a red image of the device's size: each pixel (x, y) is red as painted by the "Key n" label drawn at (10, height-20) |
| `Example.GetKeyImage` | example.py:59-84 | `get_key_image` succeeds exactly when the device's order is valid, and then returns width*height*3 bytes |
| `Example.GetKeyImageAt` | example.py:59-84 | byte 3*(y*width+x)+k of `get_key_image` is band `order[k]` of red repainted by the "Key n" label drawn at (10, height-20), taken at pixel (width-1-x, y) |
| `Example.KeyChangeCallback` | example.py:87-93 | when the key is the last one (index key_count-1), on press and on release alike, the device log gains reset then close; for any other key the log is unchanged |
| `StreamDeck.Deck.SetKeyImage` | example.py:44 | sending an image appends exactly that call to the device log |
| `StreamDeck.Deck.Reset` | example.py:92 | a reset appends exactly that call to the device log |
| `StreamDeck.Deck.Close` | example.py:93 | a close appends exactly that call to the device log |

## Left out

- TrueType loading and text rasterisation (`ImageFont.truetype`, `draw.text` with a semi-transparent white fill) are foreign code. The font is a `Painter` parameter that repaints each pixel from its position, the anchor, the text and its previous colour. How glyphs are shaped and how the alpha is blended is not modelled.
- A missing font file (an `OSError` from `ImageFont.truetype`) is not modelled, because font loading is left out.
- The `__main__` block is I/O against the StreamDeck library and is not modelled: device enumeration, open, reset, brightness, the pre-seeding of keys 2 and 3, and registering the callback.
- The thread join loop is concurrency only and is not modelled.
- The `print` diagnostics and `deck.id()` are output only and are not modelled.
- The device methods are reduced to entries in a call log; what the hardware does with them is not modelled.
- Colours are triples of 0..255 values. Other arguments that PIL's `paste` accepts (a single integer, or out-of-range values) are not modelled.
- Example.KeyImage: the black `Image.new` that `get_key_image` immediately pastes red over is folded into one red image, because the paste overwrites every pixel.
- Nothing of a controller owning all keys exists in the code and none is modelled: no press highlighting, run loop, format validation or timeouts.
