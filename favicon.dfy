/**
 * The favicon generator: a Windows ICO container holding one 16x16, 32-bit bitmap (a black
 * square with an orange "J"), serialised byte by byte. Multi-byte fields are little-endian.
 */
module Favicon {
  newtype byte = x: int | 0 <= x < 256

  /** The little-endian 16- and 32-bit fields at offset `at`. */
  function U16(b: seq<byte>, at: nat): int
    requires at + 2 <= |b|
  {
    b[at] as int + 256 * b[at + 1] as int
  }

  function U32(b: seq<byte>, at: nat): int
    requires at + 4 <= |b|
  {
    U16(b, at) + 65536 * U16(b, at + 2)
  }

  // ---------------------------------------------------------------------------
  // The fixed headers
  // ---------------------------------------------------------------------------

  /** ICONDIR: reserved, type, image count. */
  const IcoHeader: seq<byte> := [0x00, 0x00, 0x01, 0x00, 0x01, 0x00]

  /** ICONDIRENTRY: width, height, palette, reserved, planes, bit count, data size, data offset. */
  const IcoDir: seq<byte> := [
    0x10, 0x10, 0x00, 0x00,
    0x01, 0x00, 0x20, 0x00,
    0x00, 0x04, 0x00, 0x00,
    0x16, 0x00, 0x00, 0x00]

  /** BITMAPINFOHEADER; the height counts the colour rows and the mask rows of an icon. */
  const BmpHeader: seq<byte> := [
    0x28, 0x00, 0x00, 0x00,
    0x10, 0x00, 0x00, 0x00,
    0x20, 0x00, 0x00, 0x00,
    0x01, 0x00,
    0x20, 0x00,
    0x00, 0x00, 0x00, 0x00,
    0x00, 0x04, 0x00, 0x00,
    0x00, 0x00, 0x00, 0x00,
    0x00, 0x00, 0x00, 0x00,
    0x00, 0x00, 0x00, 0x00,
    0x00, 0x00, 0x00, 0x00]

  /** The ICO header is 6 bytes: reserved 0, type 1 (an icon), one image. */
  lemma IcoHeaderFields()
    ensures |IcoHeader| == 6
    ensures U16(IcoHeader, 0) == 0 && U16(IcoHeader, 2) == 1 && U16(IcoHeader, 4) == 1
  {
  }

  /**
   * The directory entry is 16 bytes for one 16x16, one-plane, 32-bit image whose data starts
   * right after the header and the entry themselves.
   */
  lemma IcoDirFields()
    ensures |IcoDir| == 16
    ensures IcoDir[0] as int == 16 && IcoDir[1] as int == 16
    ensures U16(IcoDir, 4) == 1 && U16(IcoDir, 6) == 32
    ensures U32(IcoDir, 8) == 0x400
    ensures U32(IcoDir, 12) == 22 == |IcoHeader| + |IcoDir|
  {
  }

  /** The bitmap header is 40 bytes and says so; it is 16 wide and twice that high. */
  lemma BmpHeaderSize()
    ensures |BmpHeader| == 40 && U32(BmpHeader, 0) == 40
    ensures U32(BmpHeader, 4) == 16 && U32(BmpHeader, 8) == 32
  {
  }

  /** One plane of 32 bits, uncompressed, with an image size of 1024 bytes. */
  lemma BmpHeaderFormat()
    ensures |BmpHeader| == 40
    ensures U16(BmpHeader, 12) == 1 && U16(BmpHeader, 14) == 32
    ensures U32(BmpHeader, 16) == 0 && U32(BmpHeader, 20) == 1024
  {
  }

  /** No resolution and no palette: the last four fields are zero. */
  lemma BmpHeaderTail()
    ensures |BmpHeader| == 40
    ensures U32(BmpHeader, 24) == 0 && U32(BmpHeader, 28) == 0
    ensures U32(BmpHeader, 32) == 0 && U32(BmpHeader, 36) == 0
  {
  }

  // ---------------------------------------------------------------------------
  // The pixels
  // ---------------------------------------------------------------------------

  /** The "J": its stem, columns 6 to 9 of rows 4 to 12, and its hook, columns 4 to 6 of rows 10 to 12. */
  predicate IsJ(x: int, y: int) {
    (6 <= x <= 9 && 4 <= y <= 12) || (4 <= x <= 6 && 10 <= y <= 12)
  }

  /** The two colours, as blue, green, red, alpha. */
  const Orange: seq<byte> := [0x00, 0x90, 0xFF, 0xFF]
  const Black: seq<byte> := [0x00, 0x00, 0x00, 0xFF]

  function Colour(x: int, y: int): seq<byte> {
    if IsJ(x, y) then Orange else Black
  }

  /** The bytes of the first `n` pixels in the order the loops visit them: row by row, left to right. */
  function PixelBytes(n: nat): (r: seq<byte>)
    requires n <= 256
    ensures |r| == 4 * n
  {
    if n == 0 then [] else PixelBytes(n - 1) + Colour((n - 1) % 16, (n - 1) / 16)
  }

  /** The script's outer loop, over the rows. */
  method BuildPixels() returns (pixels: seq<byte>)
    ensures pixels == PixelBytes(256)
  {
    pixels := [];
    var y := 0;
    while y < 16
      invariant 0 <= y <= 16
      invariant pixels == PixelBytes(16 * y)
    {
      pixels := PushRow(pixels, y);
      y := y + 1;
    }
  }

  /** The script's inner loop: row `y`, left to right, four bytes per pixel. */
  method PushRow(before: seq<byte>, y: nat) returns (pixels: seq<byte>)
    requires y < 16 && before == PixelBytes(16 * y)
    ensures pixels == PixelBytes(16 * (y + 1))
  {
    pixels := before;
    var x := 0;
    while x < 16
      invariant 0 <= x <= 16
      invariant pixels == PixelBytes(16 * y + x)
    {
      ScanStep(x, y);
      pixels := pixels + Colour(x, y);
      x := x + 1;
    }
    assert 16 * y + x == 16 * (y + 1);
  }

  /** Visiting pixel (x, y) appends its colour to the bytes of the pixels scanned before it. */
  lemma ScanStep(x: nat, y: nat)
    requires x < 16 && y < 16
    ensures 16 * y + x + 1 <= 256
    ensures PixelBytes(16 * y + x + 1) == PixelBytes(16 * y + x) + Colour(x, y)
  {
    ScanIndex(x, y);
  }

  /** Scan position `16*y + x` is column `x` of row `y`. */
  lemma ScanIndex(x: nat, y: nat)
    requires x < 16 && y < 16
    ensures (16 * y + x) % 16 == x && (16 * y + x) / 16 == y
  {
    var n := 16 * y + x;
    var q, r := n / 16, n % 16;
    assert n == 16 * q + r && 0 <= r < 16;
    assert 16 * (q - y) == x - r;
  }

  /** Pixel `i` of the scan occupies bytes `4*i` to `4*i+3`. */
  lemma {:induction false} PixelBytesLayout(n: nat, i: nat)
    requires i < n <= 256
    ensures PixelBytes(n)[4 * i..4 * i + 4] == Colour(i % 16, i / 16)
  {
    if i < n - 1 {
      PixelBytesLayout(n - 1, i);
      var prev := PixelBytes(n - 1);
      assert PixelBytes(n)[4 * i..4 * i + 4] == prev[4 * i..4 * i + 4];
    } else {
      assert PixelBytes(n)[4 * i..4 * i + 4] == Colour(i % 16, i / 16);
    }
  }

  /** The whole buffer is 16 x 16 x 4 = 1024 bytes, the bitmap header's image size. */
  lemma PixelBufferSize()
    ensures |PixelBytes(256)| == 1024 == U32(BmpHeader, 20)
  {
    BmpHeaderFormat();
  }

  /**
   * Pixel (x, y) sits at bytes `4*(16*y+x)` onward, and it is orange exactly when it belongs
   * to the "J" and black otherwise; either way fully opaque.
   */
  lemma PixelAt(x: nat, y: nat)
    requires x < 16 && y < 16
    ensures var p := PixelBytes(256)[4 * (16 * y + x)..4 * (16 * y + x) + 4];
      && (p == Orange <==> IsJ(x, y))
      && (p == Black <==> !IsJ(x, y))
      && p[3] == 0xFF
  {
    var i := 16 * y + x;
    ScanIndex(x, y);
    PixelBytesLayout(256, i);
    assert Orange[1] != Black[1];
  }

  // ---------------------------------------------------------------------------
  // The file
  // ---------------------------------------------------------------------------

  /** The file: the ICO header, the directory entry, then the image data (bitmap header and pixels). */
  function IcoFile(pixels: seq<byte>): seq<byte> {
    IcoHeader + IcoDir + (BmpHeader + pixels)
  }

  /**
   * The layout of the file around 1024 bytes of pixels: 1086 bytes, the header, then the
   * directory entry, then, at the offset the entry gives, the bitmap header and the pixels.
   */
  lemma IcoFileLayout(pixels: seq<byte>)
    requires |pixels| == 1024
    ensures var file := IcoFile(pixels);
      && |file| == 1086
      && file[..6] == IcoHeader && file[6..22] == IcoDir
      && file[U32(IcoDir, 12)..U32(IcoDir, 12) + 40] == BmpHeader
      && file[62..] == pixels
  {
    var file := IcoFile(pixels);
    assert |IcoHeader| == 6 && |IcoDir| == 16 && |BmpHeader| == 40;
    assert U32(IcoDir, 12) == 22;
    assert file == (IcoHeader + IcoDir) + BmpHeader + pixels;
  }

  /** The bytes the script writes. */
  method CreateFavicon() returns (file: seq<byte>)
    ensures file == IcoFile(PixelBytes(256))
    ensures |file| == 1086 && file[62..] == PixelBytes(256)
  {
    var pixels := BuildPixels();
    var imageData := BmpHeader + pixels;
    file := IcoHeader + IcoDir + imageData;
    IcoFileLayout(pixels);
  }

  /**
   * The directory's size field counts the pixels only: it says 1024 while the bitmap
   * header and the pixels after the offset take 1064 bytes, and no mask follows them.
   */
  lemma SizeFieldCountsPixelsOnly()
    ensures var file := IcoFile(PixelBytes(256));
      && U32(IcoDir, 8) == |PixelBytes(256)| == 1024
      && |file| - U32(IcoDir, 12) == |BmpHeader| + |PixelBytes(256)| == 1064
  {
    IcoDirFields();
    BmpHeaderSize();
  }
}
