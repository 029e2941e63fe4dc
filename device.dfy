/** A stand-in for the StreamDeck device object: it reports the key count
    and key image format, and records the commands sent to it in a call log
    instead of talking to the hardware. */
module StreamDeck {
  import opened Imaging

  /** What `key_image_format()` reports. */
  datatype ImageFormat = ImageFormat(width: nat, height: nat, order: string)

  datatype Call =
    | SetKeyImage(key: nat, image: seq<Byte>)
    | Reset
    | Close

  class Deck {
    const keyCount: nat
    const format: ImageFormat
    var log: seq<Call>

    constructor (keyCount: nat, format: ImageFormat)
      ensures this.keyCount == keyCount && this.format == format && log == []
    {
      this.keyCount := keyCount;
      this.format := format;
      log := [];
    }

    method SetKeyImage(key: nat, image: seq<Byte>)
      modifies this
      ensures log == old(log) + [Call.SetKeyImage(key, image)]
    {
      log := log + [Call.SetKeyImage(key, image)];
    }

    method Reset()
      modifies this
      ensures log == old(log) + [Call.Reset]
    {
      log := log + [Call.Reset];
    }

    method Close()
      modifies this
      ensures log == old(log) + [Call.Close]
    {
      log := log + [Call.Close];
    }
  }
}
