/**
  The remote canvas as the bot sees it: a raw RGB byte buffer of a fixed
  160 x 90 size, decoded the way Image.frombytes('RGB', SIZE, data) and
  getpixel((x, y)) read it (row-major, three bytes per pixel).
 */
module Canvas {
  import opened Wrappers

  type byte = b: int | 0 <= b < 256

  /** One canvas colour, as the triple getpixel returns in RGB mode. */
  datatype Rgb = Rgb(r: byte, g: byte, b: byte)

  const Width: nat := 160
  const Height: nat := 90
  /** Number of bytes of a full RGB image of Width x Height pixels. */
  const ByteCount: nat := Width * Height * 3

  /** Why an operation of the bot raised instead of finishing. */
  datatype Fault =
    | EmptyTokenList        // random.choice on an empty token list
    | NotEnoughImageData    // Image.frombytes given fewer bytes than the image needs
    | ImageIndexOutOfRange  // getpixel outside the image

  /** True when the decoded image is the prefix of the received bytes that fills the image. */
  predicate IsImage(image: seq<byte>) { |image| == ByteCount }

  /**
    Image.frombytes: the image takes the first ByteCount bytes of the buffer;
    a shorter buffer is rejected.
   */
  function Decode(data: seq<byte>): (r: Result<seq<byte>, Fault>)
    ensures r.Success? <==> |data| >= ByteCount
    ensures r.Failure? ==> r.error == NotEnoughImageData
    ensures r.Success? ==> IsImage(r.value) && r.value <= data
  {
    if |data| < ByteCount then Failure(NotEnoughImageData) else Success(data[..ByteCount])
  }

  /** Index of the first byte of pixel (x, y) in a row-major RGB buffer. */
  function PixelOffset(x: nat, y: nat): nat
  {
    3 * (y * Width + x)
  }

  /**
    getpixel((x, y)) on an RGB image: the three bytes of that pixel, read from
    the window at 3 * (Width * y + x), which lies inside the buffer and belongs
    to (x, y) alone. Outside the canvas getpixel raises, hence the requires.
   */
  function ColorAt(image: seq<byte>, x: nat, y: nat): (c: Rgb)
    requires IsImage(image) && x < Width && y < Height
    ensures PixelOffset(x, y) + 3 <= |image| && CoordinateOf(PixelOffset(x, y)) == (x, y)
    ensures c.r == image[3 * (Width * y + x)]
    ensures c.g == image[3 * (Width * y + x) + 1]
    ensures c.b == image[3 * (Width * y + x) + 2]
  {
    PixelOffsetInverse(x, y);
    var i := PixelOffset(x, y);
    Rgb(image[i], image[i + 1], image[i + 2])
  }

  /** The pixel whose bytes start at a given offset, the inverse of PixelOffset. */
  function CoordinateOf(offset: nat): (xy: (nat, nat))
  {
    ((offset / 3) % Width, (offset / 3) / Width)
  }

  /**
    Every in-canvas coordinate owns its own three-byte window: the
    coordinate is recovered from the window's start, so distinct pixels never
    share bytes.
   */
  lemma PixelOffsetInverse(x: nat, y: nat)
    requires x < Width && y < Height
    ensures CoordinateOf(PixelOffset(x, y)) == (x, y)
    ensures PixelOffset(x, y) + 3 <= ByteCount
  {
    var k := y * Width + x;
    assert PixelOffset(x, y) / 3 == k;
    assert k / Width == y && k % Width == x;
  }
}
