/**
  The sign-magnitude little-endian 64-bit numbers of a BSDIFF40 patch
  (3rdParty/bsdiff-4.3/bspatch.c, `offtin`).
 */
module OffCodec {
  import opened Bytes

  const TWO63: int := 0x8000_0000_0000_0000

  /** `off_t`: a value of this type has not overflowed. */
  type Off = x: int | -0x8000_0000_0000_0000 <= x < 0x8000_0000_0000_0000

  /** What eight bytes mean: bit 63 is the sign, the other 63 bits the magnitude. */
  function DecodeOff(buf: seq<Byte>): int
    requires |buf| == 8
  {
    var magnitude: int := Le(buf[7 := buf[7] % 128]);
    if buf[7] >= 128 then -magnitude else magnitude
  }

  /** The encoder a patch producer uses; the partner of `DecodeOff`. */
  function EncodeOff(x: int): (buf: seq<Byte>)
    requires -TWO63 < x < TWO63
    ensures |buf| == 8
  {
    Radix8();
    var magnitude := if x < 0 then -x else x;
    var buf := LeBytes(magnitude, 8);
    TopByteSmall(magnitude);
    if x < 0 then buf[7 := buf[7] + 128] else buf
  }

  /** Unrolls an eight-byte number. */
  lemma Le8(s: seq<Byte>)
    requires |s| == 8
    ensures Le(s) == s[0] as int + 256 * s[1] as int + 0x1_0000 * s[2] as int
                     + 0x100_0000 * s[3] as int + 0x1_0000_0000 * s[4] as int
                     + 0x100_0000_0000 * s[5] as int + 0x1_0000_0000_0000 * s[6] as int
                     + 0x100_0000_0000_0000 * s[7] as int
  {
    LeStep(s, 0); LeStep(s, 1); LeStep(s, 2); LeStep(s, 3);
    LeStep(s, 4); LeStep(s, 5); LeStep(s, 6); LeStep(s, 7);
    assert s[0..] == s;
  }

  lemma TopByteSmall(n: nat)
    requires n < TWO63
    ensures LeBytes(n, 8)[7] < 128
  {
    Radix8();
    LeOfLeBytes(n, 8);
    Le8(LeBytes(n, 8));
  }

  lemma TopByteBounds(s: seq<Byte>)
    requires |s| == 8 && s[7] < 128
    ensures Le(s) < TWO63
  {
    Le8(s);
  }

  /** Every number a patch can carry is read back exactly. */
  lemma DecodeOfEncode(x: int)
    requires -TWO63 < x < TWO63
    ensures DecodeOff(EncodeOff(x)) == x
  {
    Radix8();
    var magnitude := if x < 0 then -x else x;
    var buf := LeBytes(magnitude, 8);
    TopByteSmall(magnitude);
    LeOfLeBytes(magnitude, 8);
    assert EncodeOff(x)[7 := EncodeOff(x)[7] % 128] == buf;
  }

  /** The decoder never leaves the range. */
  lemma DecodeInRange(buf: seq<Byte>)
    requires |buf| == 8
    ensures -TWO63 < DecodeOff(buf) < TWO63
  {
    TopByteBounds(buf[7 := buf[7] % 128]);
  }

  /** A string of zeros is the only encoding of magnitude zero. */
  lemma {:induction false} ZeroMagnitude(s: seq<Byte>)
    ensures Le(s) == 0 <==> forall i :: 0 <= i < |s| ==> s[i] == 0
  {
    if s != [] {
      ZeroMagnitude(s[1..]);
      assert s == [s[0]] + s[1..];
    }
  }

  /** Encoding what was decoded gives the bytes back exactly when they are not the second
      encoding of zero. */
  lemma EncodeOfDecode(buf: seq<Byte>)
    requires |buf| == 8
    ensures -TWO63 < DecodeOff(buf) < TWO63
    ensures EncodeOff(DecodeOff(buf)) == buf <==> buf != [0, 0, 0, 0, 0, 0, 0, 128]
  {
    DecodeInRange(buf);
    var plain := buf[7 := buf[7] % 128];
    LeBytesOfLe(plain);
    ZeroMagnitude(plain);
    if buf[7] < 128 {
      assert plain == buf;
    } else if Le(plain) == 0 {
      assert plain[7] == 0 && forall i :: 0 <= i < 7 ==> plain[i] == buf[i];
      assert buf == [0, 0, 0, 0, 0, 0, 0, 128];
    } else {
      assert plain[7 := plain[7] + 128] == buf;
    }
  }

  /** Two different encodings of one number exist for zero only. */
  lemma EncodingUnique(a: seq<Byte>, b: seq<Byte>)
    requires |a| == 8 && |b| == 8
    requires DecodeOff(a) == DecodeOff(b)
    ensures a == b || DecodeOff(a) == 0
  {
    EncodeOfDecode(a);
    EncodeOfDecode(b);
    ZeroMagnitude(a[7 := a[7] % 128]);
    ZeroMagnitude(b[7 := b[7] % 128]);
  }

  /** The value of eight bytes written out: byte i counts 256^i, and the top bit is the sign. */
  lemma DecodeValue(b: seq<Byte>)
    requires |b| == 8
    ensures var low := b[0] as int + 0x100 * b[1] as int + 0x1_0000 * b[2] as int
                       + 0x100_0000 * b[3] as int + 0x1_0000_0000 * b[4] as int
                       + 0x100_0000_0000 * b[5] as int + 0x1_0000_0000_0000 * b[6] as int;
            DecodeOff(b) == if b[7] < 128 then low + 0x100_0000_0000_0000 * b[7] as int
                            else -(low + 0x100_0000_0000_0000 * (b[7] as int - 128))
  {
    Le8(b[7 := b[7] % 128]);
  }

  /** `offtin` itself: `y` is of type `Off` throughout, so no step overflows. */
  method Offtin(buf: seq<Byte>) returns (y: Off)
    requires |buf| == 8
    ensures y == DecodeOff(buf)
  {
    y := buf[7] % 128;
    y := y * 256; y := y + buf[6];
    y := y * 256; y := y + buf[5];
    y := y * 256; y := y + buf[4];
    y := y * 256; y := y + buf[3];
    y := y * 256; y := y + buf[2];
    y := y * 256; y := y + buf[1];
    y := y * 256; y := y + buf[0];
    Le8(buf[7 := buf[7] % 128]);
    if buf[7] >= 128 {
      y := -y;
    }
  }
}
