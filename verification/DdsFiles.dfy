/** Surfaces written byte by byte, and what decoding makes of them. */
module DdsFiles {
  import opened Dds
  import opened Wrappers

  // Numbers as bytes.

  /** The lowest bytes of a number, lowest first. */
  function Bytes(n: nat, size: nat): (b: seq<Byte>)
    ensures |b| == size
  {
    if size == 0 then [] else [n % 256] + Bytes(n / 256, size - 1)
  }

  function Pow256(size: nat): (r: nat)
    ensures r > 0
  {
    if size == 0 then 1 else 256 * Pow256(size - 1)
  }

  lemma {:induction false} BytesRead(n: nat, size: nat)
    requires n < Pow256(size)
    ensures LittleEndian(Bytes(n, size)) == n
  {
    if size > 0 {
      BytesRead(n / 256, size - 1);
      assert Bytes(n, size)[1..] == Bytes(n / 256, size - 1);
    }
  }

  /** A number written in a base of 2^width, lowest digit first. */
  function Number(digits: seq<nat>, base: nat): nat {
    if digits == [] then 0 else digits[0] + base * Number(digits[1..], base)
  }

  predicate Below(digits: seq<nat>, base: nat) {
    forall i :: 0 <= i < |digits| ==> digits[i] < base
  }

  lemma {:induction false} NumberBelow(digits: seq<nat>, base: nat, width: nat)
    requires Below(digits, base) && base == Pow2(width)
    ensures Number(digits, base) < Pow2(width * |digits|)
  {
    if digits != [] {
      NumberBelow(digits[1..], base, width);
      var k := |digits| - 1;
      Pow2Sum(width, width * k);
      assert width + width * k == width * (k + 1);
      OneDigitMore(digits[0], Number(digits[1..], base), Pow2(width * k), base);
    }
  }

  lemma OneDigitMore(d: nat, n: nat, m: nat, base: nat)
    requires d < base && n < m
    ensures d + base * n < base * m
  {
    Scale(n + 1, m, base);
  }

  /** Digit t of a number is the field of its bits. */
  lemma {:induction false} DigitAt(digits: seq<nat>, base: nat, width: nat, t: nat)
    requires Below(digits, base) && base == Pow2(width) && t < |digits|
    ensures Field(Number(digits, base), width * t, width) == digits[t]
  {
    var n := Number(digits[1..], base);
    DivisionIs(digits[0] + base * n, base, n, digits[0]);
    if t == 0 {
      DivisionIs(Number(digits, base), 1, Number(digits, base), 0);
    } else {
      DigitAt(digits[1..], base, width, t - 1);
      Pow2Sum(width, width * (t - 1));
      assert width + width * (t - 1) == width * t;
      DivisionTwice(Number(digits, base), base, Pow2(width * (t - 1)));
    }
  }

  // Headers.

  /** What a header says, with the bytes that decoding does not look at. */
  datatype Header = Header(tag: seq<Byte>, height: nat, width: nat, flags: nat, code: seq<Byte>, bits: nat,
                           red: nat, green: nat, blue: nat, alpha: nat, unread: seq<Byte>)

  predicate WellFormed(h: Header) {
    && |h.tag| == 4 && |h.code| == 4 && |h.unread| == 128
    && h.height < 0x1_0000_0000 && h.width < 0x1_0000_0000 && h.flags < 0x1_0000_0000 && h.bits < 0x1_0000_0000
    && h.red < 0x1_0000_0000 && h.green < 0x1_0000_0000 && h.blue < 0x1_0000_0000 && h.alpha < 0x1_0000_0000
  }

  /** Byte i of the 128 bytes of a header. */
  function HeaderByte(h: Header, i: nat): Byte
    requires WellFormed(h) && i < 128
  {
    if i < 4 then h.tag[i]
    else if 12 <= i < 16 then Bytes(h.height, 4)[i - 12]
    else if 16 <= i < 20 then Bytes(h.width, 4)[i - 16]
    else if 80 <= i < 84 then Bytes(h.flags, 4)[i - 80]
    else if 84 <= i < 88 then h.code[i - 84]
    else if 88 <= i < 92 then Bytes(h.bits, 4)[i - 88]
    else if 92 <= i < 96 then Bytes(h.red, 4)[i - 92]
    else if 96 <= i < 100 then Bytes(h.green, 4)[i - 96]
    else if 100 <= i < 104 then Bytes(h.blue, 4)[i - 100]
    else if 104 <= i < 108 then Bytes(h.alpha, 4)[i - 104]
    else h.unread[i]
  }

  function File(h: Header, pixels: seq<Byte>): (data: seq<Byte>)
    requires WellFormed(h)
    ensures |data| == 128 + |pixels|
  {
    seq(128, i requires 0 <= i < 128 => HeaderByte(h, i)) + pixels
  }

  lemma FileByte(h: Header, pixels: seq<Byte>, i: nat)
    requires WellFormed(h) && i < 128
    ensures File(h, pixels)[i] == HeaderByte(h, i)
  {
  }

  lemma WordAt(data: seq<Byte>, at: nat, n: nat)
    requires at + 4 <= |data| && n < 0x1_0000_0000
    requires forall i :: 0 <= i < 4 ==> data[at + i] == Bytes(n, 4)[i]
    ensures Word(data, at) == n
  {
    assert data[at..at + 4] == Bytes(n, 4);
    assert Pow256(4) == 0x1_0000_0000 by {
      assert Pow256(0) == 1 && Pow256(1) == 256 && Pow256(2) == 65536 && Pow256(3) == 0x100_0000;
    }
    BytesRead(n, 4);
  }

  /** Four bytes as a word. */
  function Letters(s: seq<Byte>): nat
    requires |s| == 4
  {
    s[0] as int + 256 * (s[1] as int) + 65536 * (s[2] as int) + 16777216 * (s[3] as int)
  }

  lemma LettersAt(data: seq<Byte>, at: nat, s: seq<Byte>)
    requires at + 4 <= |data| && |s| == 4 && forall i :: 0 <= i < 4 ==> data[at + i] == s[i]
    ensures Word(data, at) == Letters(s)
  {
    assert data[at..at + 4] == s;
    var one, two, three := s[1..], s[2..], s[3..];
    assert one[1..] == two && two[1..] == three && three[1..] == [];
    assert LittleEndian(three[1..]) == 0;
    var w := LittleEndian(three);
    assert LittleEndian(two) == s[2] + 256 * w;
    assert LittleEndian(one) == s[1] + 256 * LittleEndian(two);
  }

  /** Decoding reads the fields where they were written. */
  lemma HeaderRead(h: Header, pixels: seq<Byte>)
    requires WellFormed(h)
    ensures var data := File(h, pixels);
            && Word(data, 0) == Letters(h.tag) && Word(data, 12) == h.height && Word(data, 16) == h.width
            && Word(data, 80) == h.flags && Word(data, 84) == Letters(h.code) && Word(data, 88) == h.bits
            && Word(data, 92) == h.red && Word(data, 96) == h.green && Word(data, 100) == h.blue && Word(data, 104) == h.alpha
  {
    hide Word, Bytes, Letters, File;
    var data := File(h, pixels);
    forall i: nat | i < 128
      ensures data[i] == HeaderByte(h, i)
    {
      FileByte(h, pixels, i);
    }
    LettersAt(data, 0, h.tag);
    WordAt(data, 12, h.height);
    WordAt(data, 16, h.width);
    WordAt(data, 80, h.flags);
    LettersAt(data, 84, h.code);
    WordAt(data, 88, h.bits);
    WordAt(data, 92, h.red);
    WordAt(data, 96, h.green);
    WordAt(data, 100, h.blue);
    WordAt(data, 104, h.alpha);
  }

  // Accepted and refused files.

  const TAG: seq<Byte> := ['D' as int, 'D' as int, 'S' as int, ' ' as int]

  function CodeOf(f: Format): seq<Byte> {
    match f
    case BC1 => ['D' as int, 'X' as int, 'T' as int, '1' as int]
    case BC2 => ['D' as int, 'X' as int, 'T' as int, '3' as int]
    case BC3 => ['D' as int, 'X' as int, 'T' as int, '5' as int]
  }

  predicate SizeOk(h: Header) {
    1 <= h.width <= 8192 && 1 <= h.height <= 8192
  }

  function SizeOfBlock(f: Format): nat {
    match f
    case BC1 => 8
    case BC2 => 16
    case BC3 => 16
  }

  lemma LettersOfCodes(f: Format)
    ensures Letters(TAG) == MAGIC
    ensures Letters(CodeOf(f)) == match f case BC1 => DXT1 case BC2 => DXT3 case BC3 => DXT5
  {
  }

  lemma FlagBits(flags: nat)
    ensures Bit(flags, 2) == flags / 4 % 2 && Bit(flags, 6) == flags / 64 % 2
  {
    assert Pow2(0) == 1 && Pow2(1) == 2 && Pow2(2) == 4 && Pow2(3) == 8 && Pow2(4) == 16 && Pow2(5) == 32 && Pow2(6) == 64;
  }

  /** Every compressed file of every size is accepted as what it was written as, if it holds all its blocks, and refused if it
      is one byte shorter or more. */
  lemma CompressedAccepted(h: Header, f: Format, pixels: seq<Byte>)
    requires WellFormed(h) && h.tag == TAG && SizeOk(h) && h.flags / 4 % 2 == 1 && h.code == CodeOf(f)
    ensures Declared(File(h, pixels)) ==
            if |pixels| < Grid(h.width, h.height) * SizeOfBlock(f) then Refused(ShortData)
            else Compressed(f, h.width, h.height)
  {
    hide File, Word, Letters, Bit;
    HeaderRead(h, pixels);
    LettersOfCodes(f);
    FlagBits(h.flags);
  }

  /** So is every uncompressed file with any masks. */
  lemma UncompressedAccepted(h: Header, pixels: seq<Byte>)
    requires WellFormed(h) && h.tag == TAG && SizeOk(h) && h.flags / 4 % 2 == 0 && h.flags / 64 % 2 == 1 && h.bits in {24, 32}
    ensures var size := if h.bits == 24 then 3 else 4;
            Declared(File(h, pixels)) ==
            if |pixels| < h.width * h.height * size then Refused(ShortData)
            else Uncompressed(Masks(size, h.red, h.green, h.blue, h.alpha), h.width, h.height)
  {
    hide File, Word, Letters, Bit;
    HeaderRead(h, pixels);
    LettersOfCodes(BC1);
    FlagBits(h.flags);
  }

  /** All other files are refused, for the first reason that applies. */
  lemma OthersRefused(h: Header, pixels: seq<Byte>)
    requires WellFormed(h)
    ensures h.tag != TAG ==> Declared(File(h, pixels)) == Refused(NoMagic)
    ensures h.tag == TAG && (h.width == 0 || h.height == 0) ==> Declared(File(h, pixels)) == Refused(EmptyImage)
    ensures h.tag == TAG && h.width > 0 && h.height > 0 && (h.width > 8192 || h.height > 8192) ==> Declared(File(h, pixels)) == Refused(TooLarge)
    ensures h.tag == TAG && SizeOk(h) && h.flags / 4 % 2 == 0 && h.flags / 64 % 2 == 0 ==> Declared(File(h, pixels)) == Refused(NoPixelFormat)
    ensures h.tag == TAG && SizeOk(h) && h.flags / 4 % 2 == 0 && h.flags / 64 % 2 == 1 && h.bits !in {24, 32} ==>
              Declared(File(h, pixels)) == Refused(UnsupportedBitCount)
    ensures h.tag == TAG && SizeOk(h) && h.flags / 4 % 2 == 1 && (forall f :: h.code != CodeOf(f)) ==>
              Declared(File(h, pixels)) == Refused(UnsupportedCompression)
  {
    hide File, Word, Letters, Bit;
    HeaderRead(h, pixels);
    LettersOfCodes(BC1);
    LettersOfCodes(BC2);
    LettersOfCodes(BC3);
    assert Letters(h.tag) == Letters(TAG) ==> h.tag == TAG by {
      if Letters(h.tag) == Letters(TAG) {
        LettersTell(h.tag, TAG);
      }
    }
    forall f | Letters(h.code) == Letters(CodeOf(f))
      ensures h.code == CodeOf(f)
    {
      LettersTell(h.code, CodeOf(f));
    }
    FlagBits(h.flags);
  }

  lemma LettersTell(a: seq<Byte>, b: seq<Byte>)
    requires |a| == |b| == 4 && Letters(a) == Letters(b)
    ensures a == b
  {
    var a3, b3 := a[2] as int + 256 * (a[3] as int), b[2] as int + 256 * (b[3] as int);
    var a2, b2 := a[1] as int + 256 * a3, b[1] as int + 256 * b3;
    FirstByteTells(a[0], a2, b[0], b2);
    FirstByteTells(a[1], a3, b[1], b3);
  }

  lemma FirstByteTells(a: Byte, m: nat, b: Byte, n: nat)
    requires a as int + 256 * m == b as int + 256 * n
    ensures a == b && m == n
  {
  }

  lemma ShortRefused(data: seq<Byte>)
    requires |data| < 128
    ensures Declared(data) == Refused(ShortHeader)
  {
  }

  lemma {:induction false} BytesOfWord(b: seq<Byte>, size: nat)
    requires |b| == size
    ensures LittleEndian(b) < Pow256(size) && Bytes(LittleEndian(b), size) == b
  {
    if size > 0 {
      BytesOfWord(b[1..], size - 1);
      DivisionIs(LittleEndian(b), 256, LittleEndian(b[1..]), b[0]);
    }
  }

  /** Every file of at least 128 bytes is one of those. */
  lemma EveryFile(data: seq<Byte>) returns (h: Header, pixels: seq<Byte>)
    requires |data| >= 128
    ensures WellFormed(h) && data == File(h, pixels)
  {
    hide Bytes, LittleEndian, Declared;
    h := Header(data[0..4], Word(data, 12), Word(data, 16), Word(data, 80), data[84..88], Word(data, 88), Word(data, 92),
                Word(data, 96), Word(data, 100), Word(data, 104), data[..128]);
    pixels := data[128..];
    forall at | at in {12, 16, 80, 88, 92, 96, 100, 104}
      ensures Word(data, at) < 0x1_0000_0000 && Bytes(Word(data, at), 4) == data[at..at + 4]
    {
      WordBytes(data, at);
    }
    forall i: nat | i < 128
      ensures File(h, pixels)[i] == data[i]
    {
      FileByte(h, pixels, i);
    }
  }

  lemma WordBytes(data: seq<Byte>, at: nat)
    requires at + 4 <= |data|
    ensures Word(data, at) < 0x1_0000_0000 && Bytes(Word(data, at), 4) == data[at..at + 4]
  {
    assert Pow256(4) == 0x1_0000_0000 by {
      assert Pow256(0) == 1 && Pow256(1) == 256 && Pow256(2) == 65536 && Pow256(3) == 0x100_0000;
    }
    BytesOfWord(data[at..at + 4], 4);
  }

  // Block-compressed images.

  /** A packed colour by its three channels. */
  datatype Packed = Packed(r: nat, g: nat, b: nat)

  /** The palette entries, the colour code of every texel, and what its alpha is written from: a value of its own, or two ends
      and a code. */
  datatype Block = Block(first: Packed, second: Packed, codes: seq<nat>, alphas: seq<nat>, low: Byte, high: Byte, alphaCodes: seq<nat>)

  predicate PackedOk(c: Packed) {
    c.r < 32 && c.g < 64 && c.b < 32
  }

  predicate BlockOk(b: Block) {
    && PackedOk(b.first) && PackedOk(b.second) && |b.codes| == |b.alphas| == |b.alphaCodes| == 16
    && Below(b.codes, 4) && Below(b.alphas, 16) && Below(b.alphaCodes, 8)
  }

  function PackedValue(c: Packed): nat {
    c.r * 2048 + c.g * 32 + c.b
  }

  function ColorPart(b: Block): (bytes: seq<Byte>)
    ensures |bytes| == 8
  {
    Bytes(PackedValue(b.first), 2) + Bytes(PackedValue(b.second), 2) + Bytes(Number(b.codes, 4), 4)
  }

  function BlockBytesOf(f: Format, b: Block): (bytes: seq<Byte>)
    ensures |bytes| == SizeOfBlock(f)
  {
    match f
    case BC1 => ColorPart(b)
    case BC2 => Bytes(Number(b.alphas, 16), 8) + ColorPart(b)
    case BC3 => [b.low, b.high] + Bytes(Number(b.alphaCodes, 8), 6) + ColorPart(b)
  }

  // What the block is meant to show.

  function Wide(c: Packed): Color
    requires PackedOk(c)
  {
    Color(c.r * 8 + c.r / 4, c.g * 4 + c.g / 16, c.b * 8 + c.b / 4, 255)
  }

  function Weigh(a: Byte, b: Byte, p: nat, q: nat): Byte
    requires p + q > 0
  {
    MixBetween(a, b, q, p + q);
    (a * p + b * q) / (p + q)
  }

  function WeighColors(a: Color, b: Color, p: nat, q: nat): Color
    requires p + q > 0
  {
    Color(Weigh(a.r, b.r, p, q), Weigh(a.g, b.g, p, q), Weigh(a.b, b.b, p, q), 255)
  }

  /** Two thirds and one third in the four-colour mode; half and half, and nothing, in the other. */
  function Shade(b: Block, fourColors: bool, code: nat): Color
    requires PackedOk(b.first) && PackedOk(b.second)
  {
    var x, y := Wide(b.first), Wide(b.second);
    match code
    case 0 => x
    case 1 => y
    case 2 => if fourColors then WeighColors(x, y, 2, 1) else WeighColors(x, y, 1, 1)
    case _ => if fourColors then WeighColors(x, y, 1, 2) else Color(0, 0, 0, 0)
  }

  /** Sevenths between falling ends; fifths between rising ends, and the two extremes. */
  function Ramp(low: Byte, high: Byte, code: nat): Byte
    requires code < 8
  {
    if code == 0 then low
    else if code == 1 then high
    else if low > high then Weigh(low, high, 8 - code, code - 1)
    else if code < 6 then Weigh(low, high, 6 - code, code - 1)
    else if code == 6 then 0
    else 255
  }

  function Meant(f: Format, b: Block, t: nat): Color
    requires BlockOk(b) && t < 16
  {
    match f
    case BC1 => Shade(b, PackedValue(b.first) > PackedValue(b.second), b.codes[t])
    case BC2 => assert b.alphas[t] < 16; Shade(b, true, b.codes[t]).(a := b.alphas[t] * 17)
    case BC3 => assert b.alphaCodes[t] < 8; Shade(b, true, b.codes[t]).(a := Ramp(b.low, b.high, b.alphaCodes[t]))
  }

  lemma PackedFits(c: Packed)
    requires PackedOk(c)
    ensures PackedValue(c) < Pow256(2) && Rgb565(PackedValue(c)) == Wide(c)
  {
    hide Rgb565, Pow256;
    TwoBytes();
    PackedColor(c.r, c.g, c.b);
  }

  lemma TwoBytes()
    ensures Pow256(2) == 65536
  {
    assert Pow256(0) == 1 && Pow256(1) == 256;
  }

  lemma {:induction false} Pow256IsPow2(n: nat)
    ensures Pow256(n) == Pow2(8 * n)
  {
    if n > 0 {
      Pow256IsPow2(n - 1);
      Pow2Sum(8, 8 * (n - 1));
      assert Pow2(0) == 1 && Pow2(1) == 2 && Pow2(2) == 4 && Pow2(3) == 8 && Pow2(4) == 16 && Pow2(5) == 32 && Pow2(6) == 64
             && Pow2(7) == 128 && Pow2(8) == 256;
    }
  }

  /** The code of a texel is read back from the bytes of all codes. */
  lemma CodeRead(digits: seq<nat>, base: nat, width: nat, size: nat, t: nat)
    requires Below(digits, base) && base == Pow2(width) && t < |digits| && width * |digits| == 8 * size
    ensures Field(LittleEndian(Bytes(Number(digits, base), size)), width * t, width) == digits[t]
  {
    NumberBelow(digits, base, width);
    Pow256IsPow2(size);
    BytesRead(Number(digits, base), size);
    DigitAt(digits, base, width, t);
  }

  lemma ShadeRead(b: Block, fourColors: bool, punchThrough: bool, code: nat)
    requires PackedOk(b.first) && PackedOk(b.second) && code < 4
    requires fourColors == (!punchThrough || PackedValue(b.first) > PackedValue(b.second))
    ensures ColorCode(PackedValue(b.first), PackedValue(b.second), punchThrough, code) == Shade(b, fourColors, code)
  {
    hide Rgb565, Wide;
    PackedFits(b.first);
    PackedFits(b.second);
  }

  lemma ColorRead(b: Block, fourColors: bool, punchThrough: bool, t: nat)
    requires BlockOk(b) && t < 16 && fourColors == (!punchThrough || PackedValue(b.first) > PackedValue(b.second))
    ensures ColorTexel(ColorPart(b), punchThrough, t) == Shade(b, fourColors, b.codes[t])
  {
    hide ColorCode, Shade, LittleEndian, Bytes, Field, PackedValue;
    var part := ColorPart(b);
    assert part[0..2] == Bytes(PackedValue(b.first), 2) && part[2..4] == Bytes(PackedValue(b.second), 2);
    assert part[4..8] == Bytes(Number(b.codes, 4), 4);
    PackedFits(b.first);
    PackedFits(b.second);
    BytesRead(PackedValue(b.first), 2);
    BytesRead(PackedValue(b.second), 2);
    assert Pow2(2) == 4;
    CodeRead(b.codes, 4, 2, 4, t);
    ShadeRead(b, fourColors, punchThrough, b.codes[t]);
  }

  /** A texel of a block is what was written for it. */
  lemma BlockRead(f: Format, b: Block, t: nat)
    requires BlockOk(b) && t < 16
    ensures Texel(f, BlockBytesOf(f, b), t) == Meant(f, b, t)
  {
    hide ColorTexel, Shade, LittleEndian, Bytes, Field, PackedValue, Ramp, RampCode;
    var bytes := BlockBytesOf(f, b);
    match f
    case BC1 => ColorRead(b, PackedValue(b.first) > PackedValue(b.second), true, t);
    case BC2 =>
      assert bytes[8..] == ColorPart(b) && bytes[..8][0..8] == Bytes(Number(b.alphas, 16), 8);
      ColorRead(b, true, false, t);
      assert Pow2(4) == 16;
      CodeRead(b.alphas, 16, 4, 8, t);
    case BC3 =>
      assert bytes[8..] == ColorPart(b) && bytes[..8][2..8] == Bytes(Number(b.alphaCodes, 8), 6);
      ColorRead(b, true, false, t);
      assert Pow2(3) == 8;
      CodeRead(b.alphaCodes, 8, 3, 6, t);
      RampRead(b.low, b.high, b.alphaCodes[t]);
  }

  lemma RampRead(low: Byte, high: Byte, code: nat)
    requires code < 8
    ensures RampCode(low, high, code) == Ramp(low, high, code)
  {
  }

  lemma OneMore(n: nat, size: nat)
    requires n > 0
    ensures n * size == size + (n - 1) * size
  {
  }

  function AllBlocks(f: Format, blocks: seq<Block>): (bytes: seq<Byte>)
    ensures |bytes| == |blocks| * SizeOfBlock(f)
  {
    if blocks == [] then []
    else
      OneMore(|blocks|, SizeOfBlock(f));
      BlockBytesOf(f, blocks[0]) + AllBlocks(f, blocks[1..])
  }

  lemma {:induction false} BlockSlice(f: Format, blocks: seq<Block>, i: nat)
    requires i < |blocks|
    ensures i * SizeOfBlock(f) + SizeOfBlock(f) <= |blocks| * SizeOfBlock(f)
    ensures AllBlocks(f, blocks)[i * SizeOfBlock(f)..i * SizeOfBlock(f) + SizeOfBlock(f)] == BlockBytesOf(f, blocks[i])
  {
    hide BlockBytesOf;
    var n := SizeOfBlock(f);
    Scale(i + 1, |blocks|, n);
    if i > 0 {
      BlockSlice(f, blocks[1..], i - 1);
      var rest := AllBlocks(f, blocks[1..]);
      assert i * n == n + (i - 1) * n;
      assert AllBlocks(f, blocks)[i * n..i * n + n] == rest[(i - 1) * n..(i - 1) * n + n];
    }
  }

  /** A whole compressed image, written block by block, row of blocks by row of blocks, is decoded pixel by pixel into what was
      written. */
  lemma CompressedImage(h: Header, f: Format, blocks: seq<Block>, x: nat, y: nat)
    requires WellFormed(h) && h.tag == TAG && SizeOk(h) && h.flags / 4 % 2 == 1 && h.code == CodeOf(f)
    requires |blocks| == Grid(h.width, h.height) && x < h.width && y < h.height
    requires forall i :: 0 <= i < |blocks| ==> BlockOk(blocks[i])
    ensures Declared(File(h, AllBlocks(f, blocks))) == Compressed(f, h.width, h.height)
    ensures Shown(File(h, AllBlocks(f, blocks)), x, y) == Some(MeantAt(f, BlockOf(blocks, h.width, h.height, x, y), x, y))
  {
    hide *;
    var pixels := AllBlocks(f, blocks);
    CompressedAccepted(h, f, pixels);
    SameSizes(f, h.width, h.height);
    FilePixels(h, pixels);
    InGrid(x, y, h.width, h.height);
    BlockFound(f, blocks, h.width, h.height, x / 4, y / 4);
    IndexIs(blocks, h.width, h.height, x, y);
    CompressedPixel(File(h, pixels), pixels, f, h.width, h.height, x, y);
    PixelOfBlock(pixels, f, BlockOf(blocks, h.width, h.height, x, y), h.width, h.height, x, y);
    ShownIs(File(h, pixels), x, y);
  }

  /** How many blocks cover an image. */
  function Grid(width: nat, height: nat): nat {
    (width + 3) / 4 * ((height + 3) / 4)
  }

  /** The block over a pixel: blocks lie in rows of the width rounded up. */
  function BlockOf(blocks: seq<Block>, width: nat, height: nat, x: nat, y: nat): (b: Block)
    requires x < width && y < height && |blocks| == Grid(width, height)
    ensures b in blocks
  {
    RowIndex(x / 4, y / 4, (width + 3) / 4, (height + 3) / 4);
    blocks[y / 4 * ((width + 3) / 4) + x / 4]
  }

  function MeantAt(f: Format, b: Block, x: nat, y: nat): Color
    requires BlockOk(b)
  {
    Meant(f, b, y % 4 * 4 + x % 4)
  }

  /** What decoding shows at a pixel, if the file is accepted and has it. */
  function Shown(data: seq<Byte>, x: nat, y: nat): Option<Color> {
    if Declared(data).Refused? || x >= Declared(data).width || y >= Declared(data).height then None else Some(PixelOf(data, x, y))
  }

  lemma ShownIs(data: seq<Byte>, x: nat, y: nat)
    requires !Declared(data).Refused? && x < Declared(data).width && y < Declared(data).height && |data| >= HEADER_BYTES
    ensures Shown(data, x, y) == Some(PixelOf(data, x, y))
  {
    hide Declared, PixelOf;
  }

  lemma IndexIs(blocks: seq<Block>, width: nat, height: nat, x: nat, y: nat)
    requires x < width && y < height && |blocks| == Grid(width, height)
    ensures y / 4 * Blocks(width) + x / 4 < |blocks| && BlockOf(blocks, width, height, x, y) == blocks[y / 4 * Blocks(width) + x / 4]
  {
    RowIndex(x / 4, y / 4, (width + 3) / 4, (height + 3) / 4);
  }

  lemma InGrid(x: nat, y: nat, width: nat, height: nat)
    requires x < width && y < height
    ensures x / 4 < Blocks(width) && y / 4 < Blocks(height) && y % 4 * 4 + x % 4 < 16
  {
  }

  lemma SameSizes(f: Format, width: nat, height: nat)
    ensures SizeOfBlock(f) == BlockBytes(f) && Grid(width, height) == Blocks(width) * Blocks(height)
    ensures Blocks(width) == (width + 3) / 4 && Blocks(height) == (height + 3) / 4
  {
  }

  lemma FilePixels(h: Header, pixels: seq<Byte>)
    requires WellFormed(h)
    ensures |File(h, pixels)| == 128 + |pixels| && File(h, pixels)[HEADER_BYTES..] == pixels
  {
    hide HeaderByte, WellFormed;
  }

  /** A compressed pixel is a texel of its block. */
  lemma CompressedPixel(data: seq<Byte>, pixels: seq<Byte>, f: Format, width: nat, height: nat, x: nat, y: nat)
    requires |data| >= HEADER_BYTES && data[HEADER_BYTES..] == pixels && Declared(data) == Compressed(f, width, height)
    requires x < width && y < height && Blocks(width) * Blocks(height) * BlockBytes(f) <= |pixels|
    ensures PixelOf(data, x, y) == BlockPixel(pixels, f, width, height, x, y)
  {
    hide BlockPixel, Declared;
  }

  lemma PixelOfBlock(pixels: seq<Byte>, f: Format, b: Block, width: nat, height: nat, x: nat, y: nat)
    requires x < width && y < height && Blocks(width) * Blocks(height) * BlockBytes(f) <= |pixels| && BlockOk(b)
    requires x / 4 < Blocks(width) && y / 4 < Blocks(height) && y % 4 * 4 + x % 4 < 16
    requires BlockAt(pixels, f, width, height, x / 4, y / 4) == BlockBytesOf(f, b)
    ensures BlockPixel(pixels, f, width, height, x, y) == MeantAt(f, b, x, y)
  {
    hide BlockAt, Texel, Meant, BlockBytesOf, BlockOk, Blocks, BlockBytes;
    BlockRead(f, b, y % 4 * 4 + x % 4);
  }

  lemma BlockFound(f: Format, blocks: seq<Block>, width: nat, height: nat, bx: nat, by_: nat)
    requires |blocks| == Blocks(width) * Blocks(height) && bx < Blocks(width) && by_ < Blocks(height)
    ensures Blocks(width) * Blocks(height) * BlockBytes(f) <= |AllBlocks(f, blocks)| && by_ * Blocks(width) + bx < |blocks|
    ensures BlockAt(AllBlocks(f, blocks), f, width, height, bx, by_) == BlockBytesOf(f, blocks[by_ * Blocks(width) + bx])
  {
    hide BlockBytesOf, Blocks;
    RowIndex(bx, by_, Blocks(width), Blocks(height));
    BlockSlice(f, blocks, by_ * Blocks(width) + bx);
  }

  // Uncompressed images.

  /** Where each channel lies among the bytes of a pixel; without an alpha byte the image is opaque. */
  datatype Places = Places(size: nat, red: nat, green: nat, blue: nat, alpha: nat)

  predicate PlacesOk(p: Places) {
    p.size in {3, 4} && p.red < p.size && p.green < p.size && p.blue < p.size
  }

  /** A mask over byte k, none if the pixel has no such byte. */
  function ByteMask(k: nat, size: nat): nat {
    if k < size then Shifted(255, 8 * k) else 0
  }

  function PixelBytes(pixels: seq<seq<Byte>>): seq<Byte> {
    if pixels == [] then [] else pixels[0] + PixelBytes(pixels[1..])
  }

  lemma {:induction false} PixelSlice(pixels: seq<seq<Byte>>, size: nat, i: nat)
    requires i < |pixels| && forall k :: 0 <= k < |pixels| ==> |pixels[k]| == size
    ensures |PixelBytes(pixels)| == |pixels| * size && i * size + size <= |pixels| * size
    ensures PixelBytes(pixels)[i * size..i * size + size] == pixels[i]
  {
    Scale(i + 1, |pixels|, size);
    assert |pixels| * size == size + (|pixels| - 1) * size;
    if i > 0 {
      PixelSlice(pixels[1..], size, i - 1);
      var rest := PixelBytes(pixels[1..]);
      assert i * size == size + (i - 1) * size;
      assert PixelBytes(pixels)[i * size..i * size + size] == rest[(i - 1) * size..(i - 1) * size + size];
    } else if |pixels| > 1 {
      PixelSlice(pixels[1..], size, 0);
    }
  }

  function PixelIndex(width: nat, height: nat, x: nat, y: nat): (i: nat)
    requires x < width && y < height
    ensures i < width * height
  {
    RowIndex(x, y, width, height);
    y * width + x
  }

  /** A whole uncompressed image, written row by row with its channels in any bytes of a pixel, is decoded into its channels. */
  lemma UncompressedImage(h: Header, p: Places, pixels: seq<seq<Byte>>, x: nat, y: nat)
    requires WellFormed(h) && h.tag == TAG && SizeOk(h) && h.flags / 4 % 2 == 0 && h.flags / 64 % 2 == 1 && PlacesOk(p)
    requires h.bits == (if p.size == 3 then 24 else 32) && h.red == ByteMask(p.red, p.size) && h.green == ByteMask(p.green, p.size)
    requires h.blue == ByteMask(p.blue, p.size) && h.alpha == ByteMask(p.alpha, p.size)
    requires |pixels| == h.width * h.height && (forall k :: 0 <= k < |pixels| ==> |pixels[k]| == p.size) && x < h.width && y < h.height
    ensures Declared(File(h, PixelBytes(pixels))) == Uncompressed(Masks(p.size, h.red, h.green, h.blue, h.alpha), h.width, h.height)
    ensures var c := pixels[PixelIndex(h.width, h.height, x, y)];
            Shown(File(h, PixelBytes(pixels)), x, y) == Some(Color(c[p.red], c[p.green], c[p.blue], if p.alpha < p.size then c[p.alpha] else 255))
  {
    hide *;
    var bytes := PixelBytes(pixels);
    var m := Masks(p.size, h.red, h.green, h.blue, h.alpha);
    var i := PixelIndex(h.width, h.height, x, y);
    PixelAt(h.width, h.height, x, y);
    PixelSlice(pixels, p.size, i);
    SizesOfPlaces(h, p);
    UncompressedAccepted(h, bytes);
    FilePixels(h, bytes);
    UncompressedPixel(File(h, bytes), bytes, m, h.width, h.height, x, y);
    MaskedPixelAt(bytes, m, h.width, h.height, x, y, pixels[i]);
    ChannelsRead(pixels[i], m, p);
    ShownIs(File(h, bytes), x, y);
  }

  lemma PixelAt(width: nat, height: nat, x: nat, y: nat)
    requires x < width && y < height
    ensures PixelIndex(width, height, x, y) == y * width + x
  {
  }

  lemma SizesOfPlaces(h: Header, p: Places)
    requires PlacesOk(p) && h.bits == (if p.size == 3 then 24 else 32)
    ensures h.bits in {24, 32} && p.size == if h.bits == 24 then 3 else 4
  {
  }

  lemma ChannelsRead(c: seq<Byte>, m: Masks, p: Places)
    requires PlacesOk(p) && |c| == p.size
    requires m == Masks(p.size, ByteMask(p.red, p.size), ByteMask(p.green, p.size), ByteMask(p.blue, p.size), ByteMask(p.alpha, p.size))
    ensures var raw := LittleEndian(c);
            Color(Channel(raw, m.red), Channel(raw, m.green), Channel(raw, m.blue), if m.alpha == 0 then 255 else Channel(raw, m.alpha))
            == Color(c[p.red], c[p.green], c[p.blue], if p.alpha < p.size then c[p.alpha] else 255)
  {
    hide LittleEndian, Channel, Shifted;
    ByteMaskReadsByte(c, p.red);
    ByteMaskReadsByte(c, p.green);
    ByteMaskReadsByte(c, p.blue);
    if p.alpha < p.size {
      ByteMaskReadsByte(c, p.alpha);
    }
  }

  lemma RowIndex(x: nat, y: nat, width: nat, height: nat)
    requires x < width && y < height
    ensures y * width + x < width * height
  {
    BlockFits(x, y, width, height, 1);
  }

  lemma UncompressedPixel(data: seq<Byte>, pixels: seq<Byte>, m: Masks, width: nat, height: nat, x: nat, y: nat)
    requires |data| >= HEADER_BYTES && data[HEADER_BYTES..] == pixels && Declared(data) == Uncompressed(m, width, height)
    requires x < width && y < height && width * height * m.size <= |pixels|
    ensures PixelOf(data, x, y) == MaskedPixel(pixels, m, width, height, x, y)
  {
    hide MaskedPixel, Declared;
  }

  /** An uncompressed pixel is read from its own bytes. */
  lemma MaskedPixelAt(pixels: seq<Byte>, m: Masks, width: nat, height: nat, x: nat, y: nat, c: seq<Byte>)
    requires x < width && y < height && width * height * m.size <= |pixels|
    requires var at := (y * width + x) * m.size; 0 <= at && at + m.size <= |pixels| && pixels[at..at + m.size] == c
    ensures var raw := LittleEndian(c);
            MaskedPixel(pixels, m, width, height, x, y)
            == Color(Channel(raw, m.red), Channel(raw, m.green), Channel(raw, m.blue), if m.alpha == 0 then 255 else Channel(raw, m.alpha))
  {
    hide LittleEndian, Channel;
  }
}
