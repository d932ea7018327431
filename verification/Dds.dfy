/** Decoding of DirectDraw surfaces: block-compressed pixels and pixels described by channel masks. */
module Dds {

  type Byte = x: int | 0 <= x < 256

  datatype Color = Color(r: Byte, g: Byte, b: Byte, a: Byte)

  const HEADER_BYTES: nat := 128
  const MAGIC: nat := 0x20534444
  const DXT1: nat := 0x31545844
  const DXT3: nat := 0x33545844
  const DXT5: nat := 0x35545844
  const WORD: nat := 0x1_0000_0000

  function Pow2(n: nat): (r: nat)
    ensures r > 0
  {
    if n == 0 then 1 else 2 * Pow2(n - 1)
  }

  function LittleEndian(bytes: seq<Byte>): nat {
    if bytes == [] then 0 else bytes[0] + 256 * LittleEndian(bytes[1..])
  }

  function Quotient(n: nat, d: nat): nat
    requires d > 0
  {
    n / d
  }

  /** Shift right. */
  function Down(n: nat, s: nat): nat {
    Quotient(n, Pow2(s))
  }

  /** Shift right and mask: width bits of n from bit at upwards. */
  function Field(n: nat, at: nat, width: nat): (r: nat)
    ensures r < Pow2(width)
  {
    Down(n, at) % Pow2(width)
  }

  function Bit(n: nat, i: nat): (b: nat)
    ensures b < 2
  {
    Down(n, i) % 2
  }

  function Word(data: seq<Byte>, at: nat): nat
    requires at + 4 <= |data|
  {
    LittleEndian(data[at..at + 4])
  }

  // Blocks.

  /** The high bits of a channel repeated below it. */
  function Expand5(v: nat): Byte
    requires v < 32
  {
    v * 8 + v / 4
  }

  function Expand6(v: nat): Byte
    requires v < 64
  {
    v * 4 + v / 16
  }

  function Rgb565(value: nat): Color {
    assert Pow2(5) == 32 && Pow2(6) == 64;
    Color(Expand5(Field(value, 11, 5)), Expand6(Field(value, 5, 6)), Expand5(Field(value, 0, 5)), 255)
  }

  function Mix(a: Byte, b: Byte, numerator: nat, denominator: nat): (r: Byte)
    requires numerator <= denominator && 0 < denominator
    ensures a <= b ==> a <= r <= b
    ensures b <= a ==> b <= r <= a
  {
    MixBetween(a, b, numerator, denominator);
    (a * (denominator - numerator) + b * numerator) / denominator
  }

  function Lerp(from: Color, to: Color, numerator: nat, denominator: nat): Color
    requires numerator <= denominator && 0 < denominator
  {
    Color(Mix(from.r, to.r, numerator, denominator), Mix(from.g, to.g, numerator, denominator),
          Mix(from.b, to.b, numerator, denominator), 255)
  }

  const TRANSPARENT := Color(0, 0, 0, 0)

  /** The colour that a two-bit code selects. */
  function ColorCode(color0: nat, color1: nat, punchThrough: bool, code: nat): Color {
    var from, to := Rgb565(color0), Rgb565(color1);
    if code == 0 then from
    else if code == 1 then to
    else if !punchThrough || color0 > color1 then Lerp(from, to, if code == 2 then 1 else 2, 3)
    else if code == 2 then Lerp(from, to, 1, 2)
    else TRANSPARENT
  }

  function ColorTexel(block: seq<Byte>, punchThrough: bool, texel: nat): Color
    requires |block| == 8
  {
    ColorCode(LittleEndian(block[0..2]), LittleEndian(block[2..4]), punchThrough, Field(LittleEndian(block[4..8]), 2 * texel, 2))
  }

  function ExplicitAlpha(block: seq<Byte>, texel: nat): Byte
    requires |block| == 8
  {
    assert Pow2(4) == 16;
    Field(LittleEndian(block[0..8]), 4 * texel, 4) * 17
  }

  /** The alpha that a three-bit code selects between two endpoints. */
  function RampCode(alpha0: Byte, alpha1: Byte, code: nat): Byte
    requires code < 8
  {
    if code == 0 then alpha0
    else if code == 1 then alpha1
    else if alpha0 > alpha1 then Mix(alpha0, alpha1, code - 1, 7)
    else if code < 6 then Mix(alpha0, alpha1, code - 1, 5)
    else if code == 6 then 0 else 255
  }

  function RampAlpha(block: seq<Byte>, texel: nat): Byte
    requires |block| == 8
  {
    assert Pow2(3) == 8;
    RampCode(block[0], block[1], Field(LittleEndian(block[2..8]), 3 * texel, 3))
  }

  datatype Format = BC1 | BC2 | BC3

  function BlockBytes(f: Format): nat {
    if f == BC1 then 8 else 16
  }

  function Texel(f: Format, block: seq<Byte>, texel: nat): Color
    requires |block| == BlockBytes(f)
  {
    match f
    case BC1 => ColorTexel(block, true, texel)
    case BC2 => ColorTexel(block[8..], false, texel).(a := ExplicitAlpha(block[..8], texel))
    case BC3 => ColorTexel(block[8..], false, texel).(a := RampAlpha(block[..8], texel))
  }

  function Blocks(n: nat): nat {
    (n + 3) / 4
  }

  function BlockAt(pixels: seq<Byte>, f: Format, width: nat, height: nat, x: nat, y: nat): (block: seq<Byte>)
    requires x < Blocks(width) && y < Blocks(height) && Blocks(width) * Blocks(height) * BlockBytes(f) <= |pixels|
    ensures |block| == BlockBytes(f)
  {
    var at := (y * Blocks(width) + x) * BlockBytes(f);
    BlockFits(x, y, Blocks(width), Blocks(height), BlockBytes(f));
    pixels[at..at + BlockBytes(f)]
  }

  /** What pixel (x, y) of a block-compressed image is. */
  function BlockPixel(pixels: seq<Byte>, f: Format, width: nat, height: nat, x: nat, y: nat): Color
    requires x < width && y < height && Blocks(width) * Blocks(height) * BlockBytes(f) <= |pixels|
  {
    Texel(f, BlockAt(pixels, f, width, height, x / 4, y / 4), y % 4 * 4 + x % 4)
  }

  lemma BlockFits(x: nat, y: nat, wide: nat, high: nat, size: nat)
    requires x < wide && y < high
    ensures 0 <= (y * wide + x) * size <= (y * wide + x) * size + size <= wide * high * size
  {
    var n := y * wide + x;
    assert y * wide + wide == (y + 1) * wide;
    Scale(y + 1, high, wide);
    Scale(n + 1, wide * high, size);
    assert (n + 1) * size == n * size + size;
  }

  lemma Scale(a: int, b: int, c: nat)
    requires a <= b
    ensures a * c <= b * c
  {
  }

  lemma MixBetween(a: Byte, b: Byte, numerator: nat, denominator: nat)
    requires numerator <= denominator && 0 < denominator
    ensures a <= b ==> a <= (a * (denominator - numerator) + b * numerator) / denominator <= b
    ensures b <= a ==> b <= (a * (denominator - numerator) + b * numerator) / denominator <= a
  {
    if a <= b {
      Weighted(a, b, denominator - numerator, numerator);
    }
    if b <= a {
      Weighted(b, a, numerator, denominator - numerator);
    }
  }

  lemma Weighted(a: nat, b: nat, p: nat, q: nat)
    requires a <= b && 0 < p + q
    ensures a <= (a * p + b * q) / (p + q) <= b
  {
    Scale(a, b, p);
    Scale(a, b, q);
    Distributed(a, p, q);
    Distributed(b, p, q);
    QuotientBetween(a * p + b * q, p + q, a, b);
  }

  lemma Distributed(a: int, p: int, q: int)
    ensures a * (p + q) == a * p + a * q
  {
  }

  lemma QuotientBetween(s: int, d: nat, low: int, high: int)
    requires 0 < d && low * d <= s <= high * d
    ensures low <= s / d <= high
  {
    var q, r := s / d, s % d;
    assert s == q * d + r;
    if q < low {
      Scale(q + 1, low, d);
    }
    if q > high {
      Scale(high + 1, q, d);
    }
  }

  /** Expands the colour part of a block over all sixteen texels. */
  method DecodeBC1Block(block: seq<Byte>, out: array<Color>, punchThrough: bool)
    requires |block| == 8 && out.Length == 16
    modifies out
    ensures forall t :: 0 <= t < 16 ==> out[t] == ColorTexel(block, punchThrough, t)
  {
    hide Rgb565, Lerp, Field, LittleEndian;
    var color0, color1, indices := LittleEndian(block[0..2]), LittleEndian(block[2..4]), LittleEndian(block[4..8]);
    var palette := new Color[4](_ => TRANSPARENT);
    palette[0] := Rgb565(color0);
    palette[1] := Rgb565(color1);
    if !punchThrough || color0 > color1 {
      palette[2] := Lerp(palette[0], palette[1], 1, 3);
      palette[3] := Lerp(palette[0], palette[1], 2, 3);
    } else {
      palette[2] := Lerp(palette[0], palette[1], 1, 2);
      palette[3] := TRANSPARENT;
    }
    assert forall code: nat :: code < 4 ==> palette[code] == ColorCode(color0, color1, punchThrough, code);
    assert Pow2(2) == 4;
    for texel := 0 to 16
      invariant forall code: nat :: code < 4 ==> palette[code] == ColorCode(color0, color1, punchThrough, code)
      invariant forall t :: 0 <= t < texel ==> out[t] == ColorTexel(block, punchThrough, t)
    {
      out[texel] := palette[Field(indices, 2 * texel, 2)];
    }
  }

  method DecodeBC2Alpha(block: seq<Byte>, out: array<Color>)
    requires |block| == 8 && out.Length == 16
    modifies out
    ensures forall t :: 0 <= t < 16 ==> out[t] == old(out[t]).(a := ExplicitAlpha(block, t))
  {
    hide Field, LittleEndian;
    var bits := LittleEndian(block[0..8]);
    assert Pow2(4) == 16;
    for texel := 0 to 16
      invariant forall t :: 0 <= t < texel ==> out[t] == old(out[t]).(a := ExplicitAlpha(block, t))
      invariant forall t :: texel <= t < 16 ==> out[t] == old(out[t])
    {
      out[texel] := out[texel].(a := Field(bits, 4 * texel, 4) * 17);
    }
  }

  method AlphaRamp(alpha0: Byte, alpha1: Byte) returns (ramp: array<Byte>)
    ensures ramp.Length == 8 && fresh(ramp)
    ensures forall code: nat :: code < 8 ==> ramp[code] == RampCode(alpha0, alpha1, code)
  {
    hide Mix;
    ramp := new Byte[8](_ => 0);
    ramp[0] := alpha0;
    ramp[1] := alpha1;
    if alpha0 > alpha1 {
      for i := 1 to 7
        invariant forall code: nat :: code < i + 1 ==> ramp[code] == RampCode(alpha0, alpha1, code)
      {
        ramp[i + 1] := Mix(alpha0, alpha1, i, 7);
      }
    } else {
      for i := 1 to 5
        invariant forall code: nat :: code < i + 1 ==> ramp[code] == RampCode(alpha0, alpha1, code)
      {
        ramp[i + 1] := Mix(alpha0, alpha1, i, 5);
      }
      ramp[6] := 0;
      ramp[7] := 255;
    }
  }

  method DecodeBC3Alpha(block: seq<Byte>, out: array<Color>)
    requires |block| == 8 && out.Length == 16
    modifies out
    ensures forall t :: 0 <= t < 16 ==> out[t] == old(out[t]).(a := RampAlpha(block, t))
  {
    hide Field, LittleEndian, RampCode;
    var ramp := AlphaRamp(block[0], block[1]);
    var indices := LittleEndian(block[2..8]);
    assert Pow2(3) == 8;
    for texel := 0 to 16
      modifies out
      invariant forall t :: 0 <= t < texel ==> out[t] == old(out[t]).(a := RampAlpha(block, t))
      invariant forall t :: texel <= t < 16 ==> out[t] == old(out[t])
    {
      out[texel] := out[texel].(a := ramp[Field(indices, 3 * texel, 3)]);
    }
  }

  method DecodeBlock(f: Format, block: seq<Byte>, texels: array<Color>)
    requires |block| == BlockBytes(f) && texels.Length == 16
    modifies texels
    ensures forall t :: 0 <= t < 16 ==> texels[t] == Texel(f, block, t)
  {
    hide ColorTexel, ExplicitAlpha, RampAlpha;
    match f
    case BC1 =>
      DecodeBC1Block(block, texels, true);
    case BC2 =>
      DecodeBC1Block(block[8..], texels, false);
      DecodeBC2Alpha(block[..8], texels);
    case BC3 =>
      DecodeBC1Block(block[8..], texels, false);
      DecodeBC3Alpha(block[..8], texels);
  }

  predicate InBlock(x: nat, y: nat, blockX: nat, blockY: nat) {
    x / 4 == blockX && y / 4 == blockY
  }

  /** Writes the texels of one block that lie inside the image, and no other pixel. */
  method WriteBlock(image: array2<Color>, texels: array<Color>, blockX: nat, blockY: nat)
    requires texels.Length == 16
    modifies image
    ensures forall y, x {:trigger image[y, x]} :: 0 <= y < image.Length0 && 0 <= x < image.Length1 ==>
              image[y, x] == if InBlock(x, y, blockX, blockY) then texels[y % 4 * 4 + x % 4] else old(image[y, x])
  {
    var height, width := image.Length0, image.Length1;
    for row := 0 to 4
      invariant forall y, x {:trigger image[y, x]} :: 0 <= y < height && 0 <= x < width ==>
        image[y, x] == if InBlock(x, y, blockX, blockY) && y < blockY * 4 + row then texels[y % 4 * 4 + x % 4] else old(image[y, x])
    {
      var y0 := blockY * 4 + row;
      if y0 >= height {
        break;
      }
      for col := 0 to 4
        invariant forall y, x {:trigger image[y, x]} :: 0 <= y < height && 0 <= x < width ==>
          image[y, x] == if InBlock(x, y, blockX, blockY) && (y < y0 || (y == y0 && x < blockX * 4 + col))
                         then texels[y % 4 * 4 + x % 4] else old(image[y, x])
      {
        var x0 := blockX * 4 + col;
        if x0 >= width {
          break;
        }
        image[y0, x0] := texels[row * 4 + col];
      }
    }
  }

  predicate Earlier(x: nat, y: nat, blockX: nat, blockY: nat) {
    y / 4 < blockY || (y / 4 == blockY && x / 4 < blockX)
  }

  method DecodeBlocks(pixels: seq<Byte>, f: Format, width: nat, height: nat) returns (image: array2<Color>)
    requires Blocks(width) * Blocks(height) * BlockBytes(f) <= |pixels|
    ensures image.Length0 == height && image.Length1 == width && fresh(image)
    ensures forall y, x {:trigger image[y, x]} :: 0 <= y < height && 0 <= x < width ==>
              image[y, x] == BlockPixel(pixels, f, width, height, x, y)
  {
    hide Texel, BlockAt;
    image := new Color[height, width]((_, _) => TRANSPARENT);
    var texels := new Color[16](_ => TRANSPARENT);
    for blockY := 0 to Blocks(height)
      invariant forall y, x {:trigger image[y, x]} :: 0 <= y < height && 0 <= x < width && Earlier(x, y, 0, blockY) ==>
        image[y, x] == BlockPixel(pixels, f, width, height, x, y)
    {
      for blockX := 0 to Blocks(width)
        invariant forall y, x {:trigger image[y, x]} :: 0 <= y < height && 0 <= x < width && Earlier(x, y, blockX, blockY) ==>
          image[y, x] == BlockPixel(pixels, f, width, height, x, y)
      {
        DecodeBlock(f, BlockAt(pixels, f, width, height, blockX, blockY), texels);
        WriteBlock(image, texels, blockX, blockY);
      }
    }
  }

  // Masks.

  /** Bitwise and. */
  function And(a: nat, b: nat): nat {
    if a == 0 || b == 0 then 0 else 2 * And(a / 2, b / 2) + if a % 2 == 1 && b % 2 == 1 then 1 else 0
  }

  function LowestBit(mask: nat): (s: nat)
    requires mask > 0
  {
    if mask % 2 == 1 then 0 else 1 + LowestBit(mask / 2)
  }

  /** A mask shifted down to its lowest set bit. */
  function FieldWidth(mask: nat): (w: nat)
    requires mask > 0
    ensures w > 0
  {
    LowestBitDivides(mask);
    Down(mask, LowestBit(mask))
  }

  function FieldValue(raw: nat, mask: nat): nat
    requires mask > 0
  {
    Down(And(raw, mask), LowestBit(mask))
  }

  /** The field of a mask rescaled to a byte, in arithmetic on 32-bit words and bytes. */
  function Channel(raw: nat, mask: nat): Byte {
    if mask == 0 then 0 else FieldValue(raw, mask) * 255 % WORD / FieldWidth(mask) % 256
  }

  lemma {:induction false} LowestBitDivides(mask: nat)
    requires mask > 0
    ensures mask >= Pow2(LowestBit(mask)) && Down(mask, LowestBit(mask)) > 0
    ensures Bit(mask, LowestBit(mask)) == 1
    ensures forall i: nat :: i < LowestBit(mask) ==> Bit(mask, i) == 0
  {
    if mask % 2 == 0 {
      LowestBitDivides(mask / 2);
      var l := LowestBit(mask / 2);
      BitOfHalf(mask, l);
      forall i: nat | i < l + 1
        ensures Bit(mask, i) == 0
      {
        if i > 0 {
          BitOfHalf(mask, i - 1);
        }
      }
    }
    AtLeastDivisor(mask, Pow2(LowestBit(mask)));
  }

  lemma AtLeastDivisor(n: nat, d: nat)
    requires d > 0 && n / d % 2 == 1
    ensures n >= d && n / d > 0
  {
  }

  lemma BitOfHalf(n: nat, i: nat)
    ensures Bit(n, i + 1) == Bit(n / 2, i)
  {
    HalvedDivision(n, Pow2(i));
  }

  lemma HalvedDivision(n: nat, d: nat)
    requires d > 0
    ensures n / (2 * d) == n / 2 / d
  {
    var q := n / 2 / d;
    var r := n / 2 % d;
    assert n / 2 == q * d + r;
    assert n == 2 * (q * d + r) + n % 2;
    assert n == q * (2 * d) + (2 * r + n % 2);
    DivisionIs(n, 2 * d, q, 2 * r + n % 2);
  }

  lemma DivisionIs(n: nat, d: nat, q: nat, r: nat)
    requires n == q * d + r && r < d
    ensures n / d == q && n % d == r
  {
    var p := n / d;
    assert n == p * d + n % d;
    if p < q {
      Scale(p + 1, q, d);
    }
    if p > q {
      Scale(q + 1, p, d);
    }
  }

  method ExtractChannel(raw: nat, mask: nat) returns (r: Byte)
    ensures r == Channel(raw, mask)
  {
    if mask == 0 {
      return 0;
    }
    LowestBitDivides(mask);
    var shift := 0;
    while Bit(mask, shift) == 0
      invariant 0 <= shift <= LowestBit(mask)
      decreases LowestBit(mask) - shift
    {
      shift := shift + 1;
    }
    var value := Down(And(raw, mask), shift);
    var width := Down(mask, shift);
    r := value * 255 % WORD / width % 256;
  }

  /** What pixel (x, y) of an uncompressed image is. */
  function MaskedPixel(pixels: seq<Byte>, masks: Masks, width: nat, height: nat, x: nat, y: nat): Color
    requires x < width && y < height && width * height * masks.size <= |pixels|
  {
    BlockFits(x, y, width, height, masks.size);
    var at := (y * width + x) * masks.size;
    var raw := LittleEndian(pixels[at..at + masks.size]);
    Color(Channel(raw, masks.red), Channel(raw, masks.green), Channel(raw, masks.blue),
          if masks.alpha == 0 then 255 else Channel(raw, masks.alpha))
  }

  datatype Masks = Masks(size: nat, red: nat, green: nat, blue: nat, alpha: nat)

  method DecodeUncompressed(pixels: seq<Byte>, masks: Masks, width: nat, height: nat) returns (image: array2<Color>)
    requires width * height * masks.size <= |pixels|
    ensures image.Length0 == height && image.Length1 == width && fresh(image)
    ensures forall y, x {:trigger image[y, x]} :: 0 <= y < height && 0 <= x < width ==>
              image[y, x] == MaskedPixel(pixels, masks, width, height, x, y)
  {
    image := new Color[height, width]((_, _) => TRANSPARENT);
    for y := 0 to height
      invariant forall j, i {:trigger image[j, i]} :: 0 <= j < y && 0 <= i < width ==>
        image[j, i] == MaskedPixel(pixels, masks, width, height, i, j)
    {
      for x := 0 to width
        invariant forall j, i {:trigger image[j, i]} :: 0 <= j <= y && 0 <= i < width && (j < y || i < x) ==>
          image[j, i] == MaskedPixel(pixels, masks, width, height, i, j)
      {
        hide LittleEndian, Channel;
        BlockFits(x, y, width, height, masks.size);
        var offset := (y * width + x) * masks.size;
        var raw := LittleEndian(pixels[offset..offset + masks.size]);
        var r := ExtractChannel(raw, masks.red);
        var g := ExtractChannel(raw, masks.green);
        var b := ExtractChannel(raw, masks.blue);
        var a: Byte := 255;
        if masks.alpha != 0 {
          a := ExtractChannel(raw, masks.alpha);
        }
        image[y, x] := Color(r, g, b, a);
      }
    }
  }

  // Files.

  datatype Error = ShortHeader | NoMagic | EmptyImage | TooLarge | NoPixelFormat | UnsupportedBitCount | UnsupportedCompression | ShortData

  datatype Layout = Refused(error: Error) | Compressed(format: Format, width: nat, height: nat) | Uncompressed(masks: Masks, width: nat, height: nat)

  /** What the header declares and whether the file holds the pixels it declares. */
  function Declared(data: seq<Byte>): (layout: Layout)
    ensures layout.Compressed? ==>
              Blocks(layout.width) * Blocks(layout.height) * BlockBytes(layout.format) <= |data| - HEADER_BYTES
    ensures layout.Uncompressed? ==> layout.width * layout.height * layout.masks.size <= |data| - HEADER_BYTES
    ensures !layout.Refused? ==> 0 < layout.width <= 8192 && 0 < layout.height <= 8192
  {
    if |data| < HEADER_BYTES then Refused(ShortHeader)
    else if Word(data, 0) != MAGIC then Refused(NoMagic)
    else
      var height, width := Word(data, 12), Word(data, 16);
      if width <= 0 || height <= 0 then Refused(EmptyImage)
      else if width > 8192 || height > 8192 then Refused(TooLarge)
      else if Bit(Word(data, 80), 2) == 0 then
        if Bit(Word(data, 80), 6) == 0 then Refused(NoPixelFormat)
        else
          var bits := Word(data, 88);
          if bits != 32 && bits != 24 then Refused(UnsupportedBitCount)
          else if |data| < HEADER_BYTES + width * height * (bits / 8) then Refused(ShortData)
          else Uncompressed(Masks(bits / 8, Word(data, 92), Word(data, 96), Word(data, 100), Word(data, 104)), width, height)
      else
        var code := Word(data, 84);
        if code != DXT1 && code != DXT3 && code != DXT5 then Refused(UnsupportedCompression)
        else
          var f := if code == DXT1 then BC1 else if code == DXT3 then BC2 else BC3;
          if |data| < HEADER_BYTES + Blocks(width) * Blocks(height) * BlockBytes(f) then Refused(ShortData)
          else Compressed(f, width, height)
  }

  function PixelOf(data: seq<Byte>, x: nat, y: nat): Color
    requires !Declared(data).Refused? && x < Declared(data).width && y < Declared(data).height && |data| >= HEADER_BYTES
  {
    var layout, pixels := Declared(data), data[HEADER_BYTES..];
    if layout.Compressed? then BlockPixel(pixels, layout.format, layout.width, layout.height, x, y)
    else MaskedPixel(pixels, layout.masks, layout.width, layout.height, x, y)
  }

  /** Every pixel of an accepted file is the texel of its block, or the field of its masks; nothing past the data is read. */
  method DecodeDDS(data: seq<Byte>) returns (layout: Layout, image: array2<Color>)
    ensures layout == Declared(data)
    ensures !layout.Refused? ==> |data| >= HEADER_BYTES && image.Length0 == layout.height && image.Length1 == layout.width
    ensures !layout.Refused? ==> forall y, x {:trigger image[y, x]} :: 0 <= y < layout.height && 0 <= x < layout.width ==>
              image[y, x] == PixelOf(data, x, y)
  {
    layout := Declared(data);
    hide Declared, BlockPixel, MaskedPixel;
    if layout.Refused? {
      image := new Color[0, 0]((_, _) => TRANSPARENT);
    } else if layout.Compressed? {
      image := DecodeBlocks(data[HEADER_BYTES..], layout.format, layout.width, layout.height);
    } else {
      image := DecodeUncompressed(data[HEADER_BYTES..], layout.masks, layout.width, layout.height);
    }
  }

  // Where the bits of a code lie.

  /** Bit i of a little-endian number is bit i % 8 of byte i / 8. */
  lemma {:induction false} BitOfBytes(bytes: seq<Byte>, i: nat)
    requires i < 8 * |bytes|
    ensures Bit(LittleEndian(bytes), i) == Bit(bytes[i / 8], i % 8)
  {
    hide Bit;
    if i < 8 {
      LowByteBit(bytes[0], LittleEndian(bytes[1..]), i);
    } else {
      BitOfBytes(bytes[1..], i - 8);
      HighByteBit(bytes[0], LittleEndian(bytes[1..]), i - 8);
      assert bytes[1..][(i - 8) / 8] == bytes[i / 8];
    }
  }

  lemma HighByteBit(b: nat, r: nat, i: nat)
    requires b < 256
    ensures Bit(b + 256 * r, i + 8) == Bit(r, i)
  {
    Pow2Sum(8, i);
    assert Pow2(8) == 256;
    DivisionTwice(b + 256 * r, 256, Pow2(i));
  }

  lemma {:induction false} LowByteBit(b: nat, r: nat, i: nat)
    requires i < 8
    ensures Bit(b + 256 * r, i) == Bit(b, i)
  {
    Pow2Sum(i, 7 - i);
    assert Pow2(7) == 128;
    Reassembled(b, Pow2(i));
    AddMultiple(b, r, Pow2(i), Pow2(7 - i));
  }

  lemma AddMultiple(b: nat, r: nat, d: nat, m: nat)
    requires d > 0 && d * m == 128
    ensures (b + 256 * r) / d == b / d + 2 * (m * r)
  {
    Reassembled(b, d);
    Regrouped(r, 0, d, m);
    assert r * m * d == r * (d * m);
    assert 256 * r == 2 * (m * r) * d;
    DivisionIs(b + 256 * r, d, b / d + 2 * (m * r), b % d);
  }

  lemma {:induction false} Pow2Sum(a: nat, b: nat)
    ensures Pow2(a + b) == Pow2(a) * Pow2(b)
  {
    if a > 0 {
      Pow2Sum(a - 1, b);
    }
  }

  lemma DivisionTwice(n: nat, a: nat, b: nat)
    requires a > 0 && b > 0
    ensures a * b > 0 && n / (a * b) == n / a / b
  {
    var q := n / a;
    Reassembled(n, a);
    Reassembled(q, b);
    TwiceIs(n, a, b, q / b, q % b, n % a);
  }

  lemma Reassembled(n: nat, d: nat)
    requires d > 0
    ensures n == n / d * d + n % d && n % d < d
  {
  }

  lemma TwiceIs(n: nat, a: nat, b: nat, p: nat, s: nat, r: nat)
    requires r < a && s < b && n == (p * b + s) * a + r
    ensures a * b > 0 && n / (a * b) == p
  {
    Regrouped(p, s, a, b);
    Scale(s, b - 1, a);
    Regrouped(1, -1, a, b);
    DivisionIs(n, a * b, p, s * a + r);
  }

  lemma Regrouped(p: int, s: int, a: int, b: int)
    ensures (p * b + s) * a == p * (a * b) + s * a
  {
    assert (p * b + s) * a == p * b * a + s * a;
    assert p * b * a == p * (b * a);
  }

  /** A field is its lowest bit and the field above it. */
  lemma FieldSteps(n: nat, at: nat, width: nat)
    ensures Field(n, at, width + 1) == Bit(n, at) + 2 * Field(n, at + 1, width)
  {
    var m, w := n / Pow2(at), Pow2(width);
    Pow2Sum(at, 1);
    DivisionTwice(n, Pow2(at), 2);
    assert Pow2(1) == 2 && Pow2(at + 1) == Pow2(at) * 2;
    var h := m / 2;
    assert h == h / w * w + h % w;
    assert m == h / w * (2 * w) + (2 * (h % w) + m % 2) by {
      assert h / w * (2 * w) == 2 * (h / w * w);
    }
    DivisionIs(m, 2 * w, h / w, 2 * (h % w) + m % 2);
  }

  /** Bit k of the code that starts at bit at is bit at + k of the bytes. */
  lemma {:induction false} CodeBits(bytes: seq<Byte>, at: nat, width: nat, k: nat)
    requires k < width && at + width <= 8 * |bytes|
    ensures Bit(Field(LittleEndian(bytes), at, width), k) == Bit(bytes[(at + k) / 8], (at + k) % 8)
    decreases width
  {
    hide LittleEndian, Bit, Field;
    var n := LittleEndian(bytes);
    FieldSteps(n, at, width - 1);
    if k == 0 {
      BitOfBytes(bytes, at);
      BottomBit(Field(n, at, width), Bit(n, at), Field(n, at + 1, width - 1));
    } else {
      CodeBits(bytes, at + 1, width - 1, k - 1);
      UpperBit(Field(n, at, width), Bit(n, at), Field(n, at + 1, width - 1), k - 1);
    }
  }

  lemma BottomBit(n: nat, b: nat, h: nat)
    requires n == b + 2 * h && b == b % 2
    ensures Bit(n, 0) == b
  {
  }

  lemma UpperBit(n: nat, b: nat, h: nat, k: nat)
    requires n == b + 2 * h && b == b % 2
    ensures Bit(n, k + 1) == Bit(h, k)
  {
    BitOfHalf(n, k);
  }

  // What the palettes and ramps are.

  /** Unpacking undoes packing: each channel is its own 5, 6 or 5 bits, scaled to within one step of exactness. */
  lemma PackedColor(r: nat, g: nat, b: nat)
    requires r < 32 && g < 64 && b < 32
    ensures var c := Rgb565(r * 2048 + g * 32 + b);
            && c == Color(Expand5(r), Expand6(g), Expand5(b), 255)
            && -31 <= 31 * c.r - 255 * r <= 31 && -63 <= 63 * c.g - 255 * g <= 63 && -31 <= 31 * c.b - 255 * b <= 31
  {
    var value := r * 2048 + g * 32 + b;
    assert Pow2(11) == 2048 && Pow2(5) == 32 && Pow2(6) == 64 && Pow2(0) == 1;
    DivisionIs(value, 2048, r, g * 32 + b);
    DivisionIs(value, 32, r * 64 + g, b);
    DivisionIs(value, 1, value, 0);
    DivisionIs(r, 32, 0, r);
    DivisionIs(r * 64 + g, 64, r, g);
    assert value == (r * 64 + g) * 32 + b;
    NearScale(r);
    NearScale(g);
    NearScale(b);
  }

  lemma NearScale(v: nat)
    requires v < 64
    ensures v < 32 ==> -31 <= 31 * (v * 8 + v / 4) - 255 * v <= 31
    ensures -63 <= 63 * (v * 4 + v / 16) - 255 * v <= 63
  {
    var p, q := v / 4, v / 16;
    assert 4 * p <= v < 4 * p + 4;
    assert 16 * q <= v < 16 * q + 16;
  }

  predicate Between(a: Byte, x: Byte, b: Byte) {
    (a <= x <= b) || (b <= x <= a)
  }

  ghost predicate ColorBetween(a: Color, x: Color, b: Color) {
    Between(a.r, x.r, b.r) && Between(a.g, x.g, b.g) && Between(a.b, x.b, b.b)
  }

  lemma ThirdsOrdered(a: Byte, b: Byte)
    ensures Between(a, Mix(a, b, 1, 3), Mix(a, b, 2, 3)) && Between(Mix(a, b, 1, 3), Mix(a, b, 2, 3), b)
  {
  }

  /** With four colours the codes 0, 2, 3, 1 run from the first endpoint to the second; with three, code 2 lies between them. */
  lemma ColorRampOrdered(color0: nat, color1: nat, punchThrough: bool)
    ensures var c := (code: nat) => ColorCode(color0, color1, punchThrough, code);
            if !punchThrough || color0 > color1 then ColorBetween(c(0), c(2), c(3)) && ColorBetween(c(2), c(3), c(1))
            else ColorBetween(c(0), c(2), c(1)) && c(3) == TRANSPARENT
  {
    hide Mix, Rgb565;
    var a, b := Rgb565(color0), Rgb565(color1);
    ThirdsOrdered(a.r, b.r);
    ThirdsOrdered(a.g, b.g);
    ThirdsOrdered(a.b, b.b);
  }

  /** Only the one-bit alpha mode of the first format makes a texel transparent. */
  lemma TransparentIff(color0: nat, color1: nat, punchThrough: bool, code: nat)
    requires code < 4
    ensures ColorCode(color0, color1, punchThrough, code).a == (if punchThrough && color0 <= color1 && code == 3 then 0 else 255)
  {
    hide Mix, Expand5, Expand6;
  }

  /** The order in which the codes of a ramp run from one endpoint to the other. */
  function RampOrder(falling: bool, k: nat): nat {
    if k == 0 then 0 else if k == (if falling then 7 else 5) then 1 else k + 1
  }

  /** The interpolated codes fall from the first endpoint to the second, or rise with the two extremes added. */
  lemma RampMonotone(alpha0: Byte, alpha1: Byte, j: nat, k: nat)
    requires j <= k <= if alpha0 > alpha1 then 7 else 5
    ensures RampOrder(alpha0 > alpha1, j) < 8 && RampOrder(alpha0 > alpha1, k) < 8
    ensures alpha0 > alpha1 ==> RampCode(alpha0, alpha1, RampOrder(true, j)) >= RampCode(alpha0, alpha1, RampOrder(true, k))
    ensures alpha0 <= alpha1 ==> RampCode(alpha0, alpha1, RampOrder(false, j)) <= RampCode(alpha0, alpha1, RampOrder(false, k))
    ensures alpha0 <= alpha1 ==> RampCode(alpha0, alpha1, 6) == 0 && RampCode(alpha0, alpha1, 7) == 255
  {
    hide RampCode;
    var n := if alpha0 > alpha1 then 7 else 5;
    RampAt(alpha0, alpha1, j);
    RampAt(alpha0, alpha1, k);
    if alpha0 > alpha1 {
      MixFalls(alpha0, alpha1, n, j, k);
    } else {
      MixFalls(alpha1, alpha0, n, n - k, n - j);
    }
    assert alpha0 <= alpha1 ==> RampCode(alpha0, alpha1, 6) == 0 && RampCode(alpha0, alpha1, 7) == 255 by {
      Extremes(alpha0, alpha1);
    }
  }

  lemma Extremes(alpha0: Byte, alpha1: Byte)
    ensures alpha0 <= alpha1 ==> RampCode(alpha0, alpha1, 6) == 0 && RampCode(alpha0, alpha1, 7) == 255
  {
  }

  lemma MixFalls(a: nat, b: nat, n: nat, j: nat, k: nat)
    requires a >= b && j <= k <= n && n > 0
    ensures (a * (n - j) + b * j) / n >= (a * (n - k) + b * k) / n
    ensures (b * j + a * (n - j)) / n >= (b * k + a * (n - k)) / n
  {
    Scale(b, a, k - j);
    assert a * (n - j) == a * (n - k) + a * (k - j);
    assert b * k == b * j + b * (k - j);
    QuotientMonotone(a * (n - k) + b * k, a * (n - j) + b * j, n);
  }

  lemma QuotientMonotone(s: nat, t: nat, d: nat)
    requires s <= t && d > 0
    ensures s / d <= t / d
  {
    if s / d > t / d {
      Scale(t / d + 1, s / d, d);
    }
  }

  lemma RampAt(alpha0: Byte, alpha1: Byte, k: nat)
    requires k <= if alpha0 > alpha1 then 7 else 5
    ensures RampOrder(alpha0 > alpha1, k) < 8
    ensures RampCode(alpha0, alpha1, RampOrder(alpha0 > alpha1, k))
         == (alpha0 * ((if alpha0 > alpha1 then 7 else 5) - k) + alpha1 * k) / if alpha0 > alpha1 then 7 else 5
  {
  }

  // What a masked channel is.

  lemma {:induction false} AndBelow(a: nat, b: nat)
    ensures And(a, b) <= b
  {
    if b != 0 {
      AndBelow(a / 2, b / 2);
    }
  }

  lemma {:induction false} AndSelf(b: nat)
    ensures And(b, b) == b
  {
    if b != 0 {
      AndSelf(b / 2);
    }
  }

  lemma ValueBelowWidth(raw: nat, mask: nat)
    requires mask > 0
    ensures FieldValue(raw, mask) <= FieldWidth(mask) && FieldValue(mask, mask) == FieldWidth(mask)
  {
    hide And;
    AndBelow(raw, mask);
    AndSelf(mask);
    QuotientMonotone(And(raw, mask), mask, Pow2(LowestBit(mask)));
  }

  /** The largest shifted mask whose full value times 255 fits a word. */
  const WIDEST: nat := 0x01010101

  lemma ScaledFits(v: nat, w: nat)
    requires 0 < w && v <= w <= WIDEST
    ensures v * 255 % WORD == v * 255 && v * 255 / w <= 255
  {
    QuotientBetween(v * 255, w, 0, 255);
  }

  /** Under that bound the channel is the exact quotient, grows with the field, and is the field itself for a byte mask. */
  lemma ChannelExact(raw: nat, mask: nat)
    requires mask > 0 && FieldWidth(mask) <= WIDEST
    ensures Channel(raw, mask) == FieldValue(raw, mask) * 255 / FieldWidth(mask)
    ensures FieldWidth(mask) == 255 ==> Channel(raw, mask) == FieldValue(raw, mask)
  {
    hide FieldValue, FieldWidth;
    ValueBelowWidth(raw, mask);
    Unwrapped(FieldValue(raw, mask), FieldWidth(mask));
  }

  lemma Unwrapped(v: nat, w: nat)
    requires 0 < w && v <= w <= WIDEST
    ensures v * 255 % WORD / w % 256 == v * 255 / w
    ensures w == 255 ==> v * 255 / w == v
  {
    ScaledFits(v, w);
    Small(v * 255 / w);
    if w == 255 {
      DivisionIs(v * 255, 255, v, 0);
    }
  }

  lemma Small(x: int)
    requires 0 <= x <= 255
    ensures x % 256 == x
  {
  }

  lemma ChannelMonotone(raw: nat, raw': nat, mask: nat)
    requires mask > 0 && FieldWidth(mask) <= WIDEST && FieldValue(raw, mask) <= FieldValue(raw', mask)
    ensures Channel(raw, mask) <= Channel(raw', mask)
  {
    hide Channel, FieldValue, FieldWidth;
    ChannelExact(raw, mask);
    ChannelExact(raw', mask);
    var v, v', w := FieldValue(raw, mask) * 255, FieldValue(raw', mask) * 255, FieldWidth(mask);
    QuotientMonotone(v, v', w);
  }

  /** A full field reads as 255 exactly when its shifted mask is within the bound; beyond it the product wraps. */
  lemma FullScaleIff(mask: nat)
    requires 0 < mask < WORD
    ensures Channel(mask, mask) == 255 <==> FieldWidth(mask) <= WIDEST
  {
    hide FieldValue, FieldWidth;
    ValueBelowWidth(mask, mask);
    WidthBelow(mask);
    FullProduct(FieldWidth(mask));
  }

  lemma WidthBelow(mask: nat)
    requires mask > 0
    ensures FieldWidth(mask) <= mask
  {
    hide LowestBit;
    var d := Pow2(LowestBit(mask));
    Scale(1, d, mask);
    QuotientBetween(mask, d, 0, mask);
  }

  lemma FullProduct(w: nat)
    requires 0 < w < WORD
    ensures w * 255 % WORD / w % 256 == 255 <==> w <= WIDEST
  {
    if w <= WIDEST {
      ScaledFits(w, w);
      DivisionIs(w * 255, w, 255, 0);
    } else {
      var p := w * 255 % WORD;
      assert p <= w * 255 - WORD < w * 254;
      QuotientBetween(p, w, 0, 254);
      Small(p / w);
    }
  }

  /** Shift left. */
  function Shifted(m: nat, j: nat): (r: nat)
    ensures m > 0 ==> r > 0
  {
    if j == 0 then m else 2 * Shifted(m, j - 1)
  }

  lemma {:induction false} ShiftedBack(m: nat, j: nat)
    ensures Down(Shifted(m, j), j) == m
  {
    if j > 0 {
      ShiftedBack(m, j - 1);
      HalvedDivision(Shifted(m, j), Pow2(j - 1));
    }
  }

  lemma {:induction false} AndShifted(a: nat, m: nat, j: nat)
    ensures And(a, Shifted(m, j)) == Shifted(And(Down(a, j), m), j)
  {
    hide And;
    if j > 0 {
      AndShifted(a / 2, m, j - 1);
      HalvedDivision(a, Pow2(j - 1));
      AndEven(a, Shifted(m, j - 1));
    }
  }

  lemma AndZero(a: nat)
    ensures And(a, 0) == 0
  {
  }

  lemma AndOdd(a: nat, h: nat)
    ensures And(a, 2 * h + 1) == 2 * And(a / 2, h) + a % 2
  {
  }

  lemma ModDoubled(a: nat, d: nat)
    requires d > 0
    ensures a % (2 * d) == 2 * (a / 2 % d) + a % 2
  {
    Reassembled(a / 2, d);
    Regrouped(2, 0, a / 2 / d, d);
    DivisionIs(a, 2 * d, a / 2 / d, 2 * (a / 2 % d) + a % 2);
  }

  lemma AndEven(a: nat, h: nat)
    ensures And(a, 2 * h) == 2 * And(a / 2, h)
  {
  }

  lemma {:induction false} LowestShifted(m: nat, j: nat)
    requires m % 2 == 1
    ensures LowestBit(Shifted(m, j)) == j
  {
    if j > 0 {
      LowestShifted(m, j - 1);
      assert Shifted(m, j) / 2 == Shifted(m, j - 1);
    }
  }

  lemma {:induction false} AndOnes(a: nat, w: nat)
    ensures And(a, Pow2(w) - 1) == a % Pow2(w)
  {
    hide And;
    if w > 0 {
      AndOnes(a / 2, w - 1);
      AndOdd(a, Pow2(w - 1) - 1);
      ModDoubled(a, Pow2(w - 1));
    } else {
      AndZero(a);
    }
  }

  lemma {:induction false} ByteOf(bytes: seq<Byte>, k: nat)
    requires k < |bytes|
    ensures Down(LittleEndian(bytes), 8 * k) % 256 == bytes[k]
  {
    if k > 0 {
      ByteOf(bytes[1..], k - 1);
      Pow2Sum(8, 8 * (k - 1));
      assert Pow2(8) == 256;
      DivisionTwice(LittleEndian(bytes), 256, Pow2(8 * (k - 1)));
      assert LittleEndian(bytes) / 256 == LittleEndian(bytes[1..]);
    }
  }

  /** A mask over byte k of a pixel reads that byte unchanged, wherever it lies: no byte order is assumed. */
  lemma ByteMaskReadsByte(bytes: seq<Byte>, k: nat)
    requires k < |bytes|
    ensures Channel(LittleEndian(bytes), Shifted(255, 8 * k)) == bytes[k]
  {
    hide LittleEndian, And, LowestBit, Shifted, Channel;
    var raw, j := LittleEndian(bytes), 8 * k;
    LowestShifted(255, j);
    AndShifted(raw, 255, j);
    assert Pow2(8) == 256;
    AndOnes(Down(raw, j), 8);
    ByteOf(bytes, k);
    ShiftedBack(And(Down(raw, j), 255), j);
    ShiftedBack(255, j);
    ChannelExact(raw, Shifted(255, j));
  }
}
