/**
  The WAV recorder and player (components/audio/le_media.c).  A file is its bytes and a
  position; reads and writes may be short, and a write may fail at any moment: the number of the
  write call that fails, if one does, is a parameter.
 */
module WavFile {
  import opened Basics
  import opened Bytes

  const TWO16: nat := 0x1_0000

  const ID_RIFF: UInt32 := 0x46464952
  const ID_WAVE: UInt32 := 0x45564157
  const ID_FMT: UInt32 := 0x20746d66
  const ID_DATA: UInt32 := 0x61746164
  const FORMAT_PCM: UInt16 := 1
  const HEADER_SIZE: nat := 44

  /** Assignment to a `uint32_t`. */
  function Wrap32(x: nat): (r: UInt32)
    ensures r <= x && (x < TWO32 ==> r == x)
  {
    x % TWO32
  }

  // ---- files -------------------------------------------------------------------------------

  /** The file after one byte is written inside it or at its end. */
  function PutByte(f: seq<Byte>, pos: nat, b: Byte): seq<Byte>
    requires pos <= |f|
  {
    if pos < |f| then f[pos := b] else f + [b]
  }

  /** The file after data is written byte by byte. */
  function Overwrite(f: seq<Byte>, pos: nat, data: seq<Byte>): (g: seq<Byte>)
    requires pos <= |f|
    ensures |g| == if pos + |data| < |f| then |f| else pos + |data|
    decreases |data|
  {
    if data == [] then f else Overwrite(PutByte(f, pos, data[0]), pos + 1, data[1..])
  }

  lemma {:induction false} OverwriteForm(f: seq<Byte>, pos: nat, data: seq<Byte>)
    requires pos <= |f|
    ensures Overwrite(f, pos, data)
            == f[..pos] + data + f[Min(pos + |data|, |f|)..]
    decreases |data|
  {
    if data != [] {
      var g := PutByte(f, pos, data[0]);
      OverwriteForm(g, pos + 1, data[1..]);
      assert g[..pos + 1] == f[..pos] + [data[0]];
      assert g[Min(pos + |data|, |g|)..] == f[Min(pos + |data|, |f|)..];
      FirstMoves(f[..pos], data, g[Min(pos + |data|, |g|)..]);
    } else {
      assert f == f[..pos] + [] + f[pos..];
    }
  }

  lemma FirstMoves(before: seq<Byte>, data: seq<Byte>, after: seq<Byte>)
    requires data != []
    ensures before + [data[0]] + data[1..] + after == before + data + after
  {
    assert before + [data[0]] + data[1..] == before + data;
  }

  lemma {:induction false} OverwriteTwice(f: seq<Byte>, pos: nat, a: seq<Byte>, b: seq<Byte>)
    requires pos <= |f|
    ensures Overwrite(Overwrite(f, pos, a), pos + |a|, b) == Overwrite(f, pos, a + b)
    decreases |a|
  {
    if a == [] {
      assert a + b == b;
    } else {
      OverwriteTwice(PutByte(f, pos, a[0]), pos + 1, a[1..], b);
      assert (a + b)[1..] == a[1..] + b;
    }
  }

  /** The failing write call is among those from one number to another. */
  predicate FailsIn(failAt: Option<nat>, from: nat, to: nat) {
    failAt.Some? && from <= failAt.value < to
  }

  class MediaFile {
    const failAt: Option<nat>
    var bytes: seq<Byte>
    var pos: nat
    var calls: nat

    ghost predicate Valid()
      reads this
    {
      pos <= |bytes|
    }

    constructor (contents: seq<Byte>, failAt: Option<nat>)
      ensures Valid() && bytes == contents && pos == 0 && calls == 0 && this.failAt == failAt
    {
      this.failAt := failAt;
      bytes, pos, calls := contents, 0, 0;
    }

    method Seek(to: nat)
      requires to <= |bytes|
      modifies `pos
      ensures pos == to
    {
      pos := to;
    }

    /** `WriteFd`: repeats positive short writes until all is written or one fails. */
    method WriteFd(data: seq<Byte>) returns (len: int)
      requires Valid()
      modifies this
      ensures Valid() && (len == |data| || len == -1)
      ensures old(calls) <= calls && (len == -1 <==> FailsIn(failAt, old(calls), calls))
      ensures len == |data| ==>
                bytes == Overwrite(old(bytes), old(pos), data) && pos == old(pos) + |data|
      ensures |bytes| >= |old(bytes)|
    {
      var tempBufSize := 0;
      while tempBufSize < |data|
        invariant 0 <= tempBufSize <= |data| && Valid() && pos == old(pos) + tempBufSize
        invariant bytes == Overwrite(old(bytes), old(pos), data[..tempBufSize])
        invariant old(calls) <= calls && !FailsIn(failAt, old(calls), calls)
      {
        calls := calls + 1;
        if failAt == Some(calls - 1) {
          return -1;
        }
        var bytesWr: nat :| 1 <= bytesWr <= |data| - tempBufSize;
        var piece := data[tempBufSize..tempBufSize + bytesWr];
        OverwriteTwice(old(bytes), old(pos), data[..tempBufSize], piece);
        assert data[..tempBufSize] + piece == data[..tempBufSize + bytesWr];
        bytes := Overwrite(bytes, pos, piece);
        pos := pos + bytesWr;
        tempBufSize := tempBufSize + bytesWr;
      }
      assert data[..tempBufSize] == data;
      len := tempBufSize;
    }

    /** `ReadFd`: repeats short reads until the buffer is full or the file ends. */
    method ReadFd(bufSize: nat) returns (data: seq<Byte>)
      requires Valid()
      modifies `pos
      ensures old(pos) <= pos && Valid() && data == bytes[old(pos)..pos]
      ensures pos == Min(old(pos) + bufSize, |bytes|)
    {
      data := [];
      while |data| < bufSize
        invariant Valid() && |data| <= bufSize && pos == old(pos) + |data|
        invariant data == bytes[old(pos)..pos]
        decreases bufSize - |data|
      {
        if pos == |bytes| {
          return;
        }
        var most := Min(bufSize - |data|, |bytes| - pos);
        var bytesRd: nat :| 1 <= bytesRd <= most;
        data := data + bytes[pos..pos + bytesRd];
        pos := pos + bytesRd;
      }
    }
  }

  // ---- the header --------------------------------------------------------------------------

  datatype Pcm = Pcm(sampleRate: UInt32, channels: UInt16, bits: UInt16)

  /** `WavHeader_t`. */
  datatype Header = Header(
    riffId: UInt32, riffSize: UInt32, riffFmt: UInt32, fmtId: UInt32, fmtSize: UInt32,
    audioFormat: UInt16, channelsCount: UInt16, sampleRate: UInt32, byteRate: UInt32,
    blockAlign: UInt16, bitsPerSample: UInt16, dataId: UInt32, dataSize: UInt32)

  /** The part of the header between the two sizes. */
  function Middle(h: Header): (s: seq<Byte>)
    ensures |s| == 32
  {
    LeBytes(h.riffFmt, 4) + LeBytes(h.fmtId, 4) + LeBytes(h.fmtSize, 4)
    + LeBytes(h.audioFormat, 2) + LeBytes(h.channelsCount, 2) + LeBytes(h.sampleRate, 4)
    + LeBytes(h.byteRate, 4) + LeBytes(h.blockAlign, 2) + LeBytes(h.bitsPerSample, 2)
    + LeBytes(h.dataId, 4)
  }

  /** The structure as it lies in memory. */
  function Encode(h: Header): (s: seq<Byte>)
    ensures |s| == HEADER_SIZE
  {
    LeBytes(h.riffId, 4) + LeBytes(h.riffSize, 4) + Middle(h) + LeBytes(h.dataSize, 4)
  }

  function Field(s: seq<Byte>, at: nat, n: nat): nat
    requires at + n <= |s|
  {
    Le(s[at..at + n])
  }

  function Word(s: seq<Byte>, at: nat): UInt32
    requires at + 4 <= |s|
  {
    Radix8(); LeBound(s[at..at + 4]);
    Field(s, at, 4)
  }

  function Half(s: seq<Byte>, at: nat): UInt16
    requires at + 2 <= |s|
  {
    Radix8(); LeBound(s[at..at + 2]);
    Field(s, at, 2)
  }

  /** 44 bytes read back as the structure. */
  function Decode(s: seq<Byte>): Header
    requires |s| == HEADER_SIZE
  {
    Header(Word(s, 0), Word(s, 4), Word(s, 8), Word(s, 12), Word(s, 16),
           Half(s, 20), Half(s, 22), Word(s, 24), Word(s, 28),
           Half(s, 32), Half(s, 34), Word(s, 36), Word(s, 40))
  }

  lemma WordIn(s: seq<Byte>, at: nat, n: UInt32)
    requires at + 4 <= |s| && s[at..at + 4] == LeBytes(n, 4)
    ensures Word(s, at) == n
  {
    Radix8();
    LeOfLeBytes(n, 4);
  }

  lemma HalfIn(s: seq<Byte>, at: nat, n: UInt16)
    requires at + 2 <= |s| && s[at..at + 2] == LeBytes(n, 2)
    ensures Half(s, at) == n
  {
    Radix8();
    LeOfLeBytes(n, 2);
  }

  /** Where the fields lie. */
  lemma EncodedEnds(h: Header)
    ensures var s := Encode(h);
            && s[0..4] == LeBytes(h.riffId, 4) && s[4..8] == LeBytes(h.riffSize, 4)
            && s[8..40] == Middle(h) && s[40..44] == LeBytes(h.dataSize, 4)
  {
  }

  lemma EncodedMiddle(h: Header)
    ensures var s := Encode(h);
            && s[8..12] == LeBytes(h.riffFmt, 4) && s[12..16] == LeBytes(h.fmtId, 4)
            && s[16..20] == LeBytes(h.fmtSize, 4) && s[20..22] == LeBytes(h.audioFormat, 2)
            && s[22..24] == LeBytes(h.channelsCount, 2) && s[24..28] == LeBytes(h.sampleRate, 4)
            && s[28..32] == LeBytes(h.byteRate, 4) && s[32..34] == LeBytes(h.blockAlign, 2)
            && s[34..36] == LeBytes(h.bitsPerSample, 2) && s[36..40] == LeBytes(h.dataId, 4)
  {
    EncodedEnds(h);
    MiddleFields(h);
    MiddleShifts(Encode(h), Middle(h));
  }

  lemma MiddleShifts(s: seq<Byte>, m: seq<Byte>)
    requires |s| == HEADER_SIZE && |m| == 32 && s[8..40] == m
    ensures s[8..12] == m[0..4] && s[12..16] == m[4..8] && s[16..20] == m[8..12]
    ensures s[20..22] == m[12..14] && s[22..24] == m[14..16] && s[24..28] == m[16..20]
    ensures s[28..32] == m[20..24] && s[32..34] == m[24..26] && s[34..36] == m[26..28]
    ensures s[36..40] == m[28..32]
  {
    Shift(s, m, 0, 4); Shift(s, m, 4, 4); Shift(s, m, 8, 4); Shift(s, m, 12, 2);
    Shift(s, m, 14, 2); Shift(s, m, 16, 4); Shift(s, m, 20, 4); Shift(s, m, 24, 2);
    Shift(s, m, 26, 2); Shift(s, m, 28, 4);
  }

  /** The structure survives the byte order. */
  lemma DecodeOfEncode(h: Header)
    ensures Decode(Encode(h)) == h
  {
    var s := Encode(h);
    EncodedEnds(h);
    EncodedMiddle(h);
    WordIn(s, 0, h.riffId); WordIn(s, 4, h.riffSize); WordIn(s, 8, h.riffFmt);
    WordIn(s, 12, h.fmtId); WordIn(s, 16, h.fmtSize);
    HalfIn(s, 20, h.audioFormat); HalfIn(s, 22, h.channelsCount);
    WordIn(s, 24, h.sampleRate); WordIn(s, 28, h.byteRate);
    HalfIn(s, 32, h.blockAlign); HalfIn(s, 34, h.bitsPerSample);
    WordIn(s, 36, h.dataId); WordIn(s, 40, h.dataSize);
  }

  lemma Shift(s: seq<Byte>, m: seq<Byte>, at: nat, n: nat)
    requires |s| == HEADER_SIZE && s[8..40] == m && at + n <= 32
    ensures s[8 + at..8 + at + n] == m[at..at + n]
  {
    var x, y := m[at..at + n], s[8 + at..8 + at + n];
    forall k | 0 <= k < |x|
      ensures x[k] == y[k]
    {
      assert m[at + k] == s[8 + at + k];
    }
    assert x == y;
  }

  lemma MiddleFields(h: Header)
    ensures var m := Middle(h);
            && m[0..4] == LeBytes(h.riffFmt, 4)
            && m[4..8] == LeBytes(h.fmtId, 4)
            && m[8..12] == LeBytes(h.fmtSize, 4)
            && m[12..14] == LeBytes(h.audioFormat, 2)
            && m[14..16] == LeBytes(h.channelsCount, 2)
            && m[16..20] == LeBytes(h.sampleRate, 4)
            && m[20..24] == LeBytes(h.byteRate, 4)
            && m[24..26] == LeBytes(h.blockAlign, 2)
            && m[26..28] == LeBytes(h.bitsPerSample, 2)
            && m[28..32] == LeBytes(h.dataId, 4)
  {
  }

  // ---- recording ---------------------------------------------------------------------------

  /** `RecordWavFile`: the byte rate, in 32-bit arithmetic. */
  function ByteRate(c: Pcm): UInt32 {
    (c.sampleRate as int * c.channels as int * c.bits as int) % TWO32 / 8
  }

  function BlockAlign(c: Pcm): UInt16 {
    (c.bits as int * c.channels as int) / 8 % TWO16
  }

  /** The header of a recording of n data bytes. */
  function RecordingHeader(c: Pcm, n: nat): Header
    requires n + 36 < TWO32
  {
    Header(ID_RIFF, n + 36, ID_WAVE, ID_FMT, 16, FORMAT_PCM, c.channels, c.sampleRate,
           ByteRate(c), BlockAlign(c), c.bits, ID_DATA, n)
  }

  /** A whole recording: header, then the data in order. */
  function Recording(c: Pcm, data: seq<Byte>): seq<Byte>
    requires |data| + 36 < TWO32
  {
    Encode(RecordingHeader(c, |data|)) + data
  }

  /** The two derived fields: bytes a second and bytes a frame, as long as the bits fit 32 and 19
      bits; beyond, they are wrong. */
  lemma DerivedFields(c: Pcm)
    ensures var bits := c.sampleRate * c.channels * c.bits;
            bits < 0x1_0000_0000 ==> 8 * ByteRate(c) <= bits < 8 * ByteRate(c) + 8
    ensures var bits := c.bits * c.channels;
            bits < 0x8_0000 ==> 8 * BlockAlign(c) <= bits < 8 * BlockAlign(c) + 8
  {
    if c.sampleRate * c.channels * c.bits < 0x1_0000_0000 {
      RateOf(c, c.sampleRate * c.channels * c.bits);
    }
    if c.bits * c.channels < 0x8_0000 {
      FrameOf(c, c.bits * c.channels);
    }
  }

  lemma RateOf(c: Pcm, bits: nat)
    requires bits == c.sampleRate * c.channels * c.bits && bits < 0x1_0000_0000
    ensures 8 * ByteRate(c) <= bits < 8 * ByteRate(c) + 8
  {
    assert ByteRate(c) == bits / 8;
  }

  lemma FrameOf(c: Pcm, bits: nat)
    requires bits == c.bits * c.channels && bits < 0x8_0000
    ensures 8 * BlockAlign(c) <= bits < 8 * BlockAlign(c) + 8
  {
    assert BlockAlign(c) == bits / 8 % TWO16;
  }

  /** The header of two samples at 8000 a second, byte by byte. */
  lemma KnownHeader()
    ensures var h := Encode(RecordingHeader(Pcm(8000, 1, 16), 4));
            && h[0..4] == [0x52, 0x49, 0x46, 0x46] && h[4..8] == [40, 0, 0, 0]
            && h[8..12] == [0x57, 0x41, 0x56, 0x45] && h[12..16] == [0x66, 0x6D, 0x74, 0x20]
            && h[16..20] == [16, 0, 0, 0] && h[20..22] == [1, 0] && h[22..24] == [1, 0]
            && h[24..28] == [0x40, 0x1F, 0, 0] && h[28..32] == [0x80, 0x3E, 0, 0]
            && h[32..34] == [2, 0] && h[34..36] == [16, 0]
            && h[36..40] == [0x64, 0x61, 0x74, 0x61] && h[40..44] == [4, 0, 0, 0]
  {
    var h := RecordingHeader(Pcm(8000, 1, 16), 4);
    assert h.byteRate == 16000 && h.blockAlign == 2;
    KnownEnds(h);
    KnownMiddle(h);
  }

  lemma KnownEnds(h: Header)
    requires h.riffId == 0x46464952 && h.riffSize == 40 && h.riffFmt == 0x45564157
    requires h.dataId == 0x61746164 && h.dataSize == 4
    ensures var s := Encode(h);
            && s[0..4] == [0x52, 0x49, 0x46, 0x46] && s[4..8] == [40, 0, 0, 0]
            && s[8..12] == [0x57, 0x41, 0x56, 0x45]
            && s[36..40] == [0x64, 0x61, 0x74, 0x61] && s[40..44] == [4, 0, 0, 0]
  {
    EncodedEnds(h);
    EncodedMiddle(h);
    FourAre(h.riffId, 0x52, 0x49, 0x46, 0x46);
    FourAre(h.riffSize, 40, 0, 0, 0);
    FourAre(h.riffFmt, 0x57, 0x41, 0x56, 0x45);
    FourAre(h.dataId, 0x64, 0x61, 0x74, 0x61);
    FourAre(h.dataSize, 4, 0, 0, 0);
  }

  lemma KnownMiddle(h: Header)
    requires h.fmtId == 0x20746d66 && h.fmtSize == 16 && h.audioFormat == 1
    requires h.channelsCount == 1 && h.sampleRate == 8000 && h.byteRate == 16000
    requires h.blockAlign == 2 && h.bitsPerSample == 16
    ensures var s := Encode(h);
            && s[12..16] == [0x66, 0x6D, 0x74, 0x20]
            && s[16..20] == [16, 0, 0, 0] && s[20..22] == [1, 0] && s[22..24] == [1, 0]
            && s[24..28] == [0x40, 0x1F, 0, 0] && s[28..32] == [0x80, 0x3E, 0, 0]
            && s[32..34] == [2, 0] && s[34..36] == [16, 0]
  {
    EncodedEnds(h);
    EncodedMiddle(h);
    FourAre(h.fmtId, 0x66, 0x6D, 0x74, 0x20);
    FourAre(h.fmtSize, 16, 0, 0, 0);
    TwoAre(h.audioFormat, 1, 0);
    FourAre(h.sampleRate, 0x40, 0x1F, 0, 0);
    FourAre(h.byteRate, 0x80, 0x3E, 0, 0);
    TwoAre(h.blockAlign, 2, 0);
    TwoAre(h.bitsPerSample, 16, 0);
  }

  lemma LeCons(a: Byte, m: nat, k: nat)
    ensures LeBytes(a + 256 * m, k + 1) == [a] + LeBytes(m, k)
  {
    assert (a + 256 * m) % 256 == a && (a + 256 * m) / 256 == m;
  }

  lemma FourAre(n: UInt32, a: Byte, b: Byte, c: Byte, d: Byte)
    requires n == a + 256 * (b + 256 * (c + 256 * d))
    ensures LeBytes(n, 4) == [a, b, c, d]
  {
    LeCons(a, b + 256 * (c + 256 * d), 3);
    LeCons(b, c + 256 * d, 2);
    TwoAre(c + 256 * d, c, d);
  }

  lemma TwoAre(n: UInt16, a: Byte, b: Byte)
    requires n == a + 256 * b
    ensures LeBytes(n, 2) == [a, b]
  {
    LeCons(a, b, 1);
    LeCons(b, 0, 0);
  }

  /** Writing as many bytes as are replaced. */
  lemma OverwriteField(pre: seq<Byte>, x: seq<Byte>, post: seq<Byte>, y: seq<Byte>)
    requires |x| == |y|
    ensures Overwrite(pre + x + post, |pre|, y) == pre + y + post
  {
    var f := pre + x + post;
    OverwriteForm(f, |pre|, y);
    assert f[..|pre|] == pre && f[|pre| + |y|..] == post;
  }

  lemma PatchTwo(id: seq<Byte>, a: seq<Byte>, mid: seq<Byte>, b: seq<Byte>, rest: seq<Byte>,
                 a': seq<Byte>, b': seq<Byte>)
    requires |id| == |a| == |b| == |a'| == |b'| == 4 && |mid| == 32
    ensures Overwrite(Overwrite(id + a + mid + b + rest, 40, b'), 4, a')
            == id + a' + mid + b' + rest
  {
    OverwriteField(id + a + mid, b, rest, b');
    Associate(id + a, mid, b', rest);
    OverwriteField(id, a, mid + b' + rest, a');
    Associate(id + a', mid, b', rest);
  }

  lemma Associate(a: seq<Byte>, b: seq<Byte>, c: seq<Byte>, d: seq<Byte>)
    ensures a + b + c + d == a + (b + c + d)
  {
  }

  /** Patching the two sizes in place turns one header into the other. */
  lemma PatchSizes(c: Pcm, n: nat, n': nat, rest: seq<Byte>)
    requires n + 36 < TWO32 && n' + 36 < TWO32
    ensures Overwrite(Overwrite(Encode(RecordingHeader(c, n)) + rest, 40, LeBytes(n', 4)),
                      4, LeBytes(n' + 36, 4))
            == Encode(RecordingHeader(c, n')) + rest
  {
    PatchTwo(LeBytes(ID_RIFF, 4), LeBytes(n + 36, 4), Middle(RecordingHeader(c, n)),
             LeBytes(n, 4), rest, LeBytes(n' + 36, 4), LeBytes(n', 4));
    SameMiddle(c, n, n');
  }

  lemma SameMiddle(c: Pcm, n: nat, n': nat)
    requires n + 36 < TWO32 && n' + 36 < TWO32
    ensures Middle(RecordingHeader(c, n)) == Middle(RecordingHeader(c, n'))
  {
  }

  /** Writing at the end of a recording. */
  lemma AppendData(hdr: seq<Byte>, data: seq<Byte>, f: seq<Byte>, buffer: seq<Byte>)
    returns (tail: seq<Byte>)
    requires |hdr| + |data| <= |f| && f[..|hdr| + |data|] == hdr + data
    ensures Overwrite(f, |hdr| + |data|, buffer) == hdr + (data + buffer + tail)
  {
    tail := f[Min(|hdr| + |data| + |buffer|, |f|)..];
    OverwriteForm(f, |hdr| + |data|, buffer);
    assert hdr + data + buffer + tail == hdr + (data + buffer + tail);
  }

  lemma Regroup(a: seq<Byte>, b: seq<Byte>, c: seq<Byte>)
    ensures a + (b + c) == a + b + c
    ensures (a + b + c)[..|a| + |b|] == a + b
  {
  }

  /** The file with the size of the data at offset 40 and that of the file less 8 at offset 4. */
  function WithSizes(f: seq<Byte>, size: UInt32): seq<Byte>
    requires |f| >= HEADER_SIZE
  {
    Overwrite(Overwrite(f, 40, LeBytes(size, 4)), 4, LeBytes(Wrap32(size + 36), 4))
  }

  /** Once the data is at the end, patching the two sizes makes the new recording. */
  lemma Repatched(c: Pcm, n: nat, data: seq<Byte>, tail: seq<Byte>, f: seq<Byte>, g: seq<Byte>)
    requires n + 36 < TWO32 && |data| + 36 < TWO32
    requires f == Encode(RecordingHeader(c, n)) + (data + tail)
    requires g == WithSizes(f, |data|)
    ensures |g| >= HEADER_SIZE + |data| && g[..HEADER_SIZE + |data|] == Recording(c, data)
  {
    PatchSizes(c, n, |data|, data + tail);
    Regroup(Encode(RecordingHeader(c, |data|)), data, tail);
  }

  /** The two sizes in the header are those of n data bytes, modulo 2^32. */
  ghost predicate Sized(f: seq<Byte>, n: nat) {
    |f| >= HEADER_SIZE && Word(f, 4) == Wrap32(n + 36) && Word(f, 40) == Wrap32(n)
  }

  lemma WrapAdd(a: nat, b: nat)
    ensures Wrap32(Wrap32(a) + b) == Wrap32(a + b)
  {
  }

  /** What is written is there, and what lies behind it is unchanged. */
  lemma FieldWritten(f: seq<Byte>, at: nat, x: seq<Byte>, from: nat, to: nat)
    requires at + |x| <= from <= to <= |f|
    ensures var g := Overwrite(f, at, x);
            g[at..at + |x|] == x && g[from..to] == f[from..to]
  {
    OverwriteForm(f, at, x);
  }

  /** What the two seeks back leave in the header. */
  lemma PatchSized(f: seq<Byte>, size: UInt32, riff: UInt32)
    requires |f| >= HEADER_SIZE
    ensures var h := Overwrite(Overwrite(f, 40, LeBytes(size, 4)), 4, LeBytes(riff, 4));
            Word(h, 40) == size && Word(h, 4) == riff
  {
    var g := Overwrite(f, 40, LeBytes(size, 4));
    var h := Overwrite(g, 4, LeBytes(riff, 4));
    FieldWritten(f, 40, LeBytes(size, 4), 44, 44);
    FieldWritten(g, 4, LeBytes(riff, 4), 40, 44);
    WordIn(h, 40, size);
    WordIn(h, 4, riff);
  }

  lemma PatchedIsSized(f: seq<Byte>, data: seq<Byte>)
    requires |f| >= HEADER_SIZE
    ensures Sized(WithSizes(f, Wrap32(|data|)), |data|)
  {
    PatchSized(f, Wrap32(|data|), Wrap32(Wrap32(|data|) + 36));
    WrapAdd(|data|, 36);
  }

  lemma HeaderSized(f: seq<Byte>, h: Header)
    requires |f| >= HEADER_SIZE && f[..HEADER_SIZE] == Encode(h)
    requires h.riffSize == 36 && h.dataSize == 0
    ensures Sized(f, 0)
  {
    DecodeOfEncode(h);
    assert f[..HEADER_SIZE][4..8] == f[4..8] && f[..HEADER_SIZE][40..44] == f[40..44];
  }

  class WavRecorder {
    const file: MediaFile
    const config: Pcm
    var recordingSize: UInt32
    ghost var data: seq<Byte>

    /** The position is where the 32-bit counter says, and the sizes in the header too. */
    ghost predicate Placed()
      reads this, file
    {
      && file.Valid() && file.pos == HEADER_SIZE + recordingSize
      && recordingSize == Wrap32(|data|) && Sized(file.bytes, |data|)
    }

    /** The file begins with a complete recording of the data and the position is at its end. */
    ghost predicate Valid()
      reads this, file
    {
      && Placed()
      && recordingSize == |data| && |data| + 36 < TWO32
      && file.bytes[..HEADER_SIZE + |data|] == Recording(config, data)
    }

    /** `SetWavHeader` at the start of a file; what the file held before may extend beyond. */
    constructor (f: MediaFile, c: Pcm)
      requires f.Valid() && f.pos == 0
      ensures file == f && config == c && recordingSize == 0 && data == []
    {
      file, config := f, c;
      recordingSize, data := 0, [];
    }

    method SetWavHeader() returns (ok: bool)
      requires file.Valid() && file.pos == 0 && recordingSize == 0 && data == []
      modifies file
      ensures ok ==> Valid()
      ensures ok ==> Placed()
      ensures old(file.calls) <= file.calls
      ensures ok <==> !FailsIn(file.failAt, old(file.calls), file.calls)
    {
      var hdr := Header(ID_RIFF, 36, ID_WAVE, ID_FMT, 16, FORMAT_PCM, config.channels,
                        config.sampleRate, ByteRate(config), BlockAlign(config), config.bits,
                        ID_DATA, 0);
      var len := file.WriteFd(Encode(hdr));
      ok := len == HEADER_SIZE;
      OverwriteForm(old(file.bytes), 0, Encode(hdr));
      assert ok ==> file.bytes[..HEADER_SIZE] == Encode(hdr) + [];
      if ok {
        HeaderSized(file.bytes, hdr);
      }
    }

    /** The two seeks back: the data size at offset 40, the file size less 8 at offset 4.  They
        turn a header for any other size into the header for the data. */
    method PatchHeader(ghost n: nat, ghost tail: seq<Byte>) returns (ok: bool)
      requires file.Valid() && |file.bytes| >= HEADER_SIZE && recordingSize == Wrap32(|data|)
      modifies file
      ensures file.Valid() && |file.bytes| >= |old(file.bytes)|
      ensures old(file.calls) <= file.calls
      ensures ok <==> !FailsIn(file.failAt, old(file.calls), file.calls)
      ensures ok ==> Sized(file.bytes, |data|)
      ensures ok && n + 36 < TWO32 && recordingSize == |data| && |data| + 36 < TWO32
              && old(file.bytes) == Encode(RecordingHeader(config, n)) + (data + tail) ==>
                HEADER_SIZE + |data| <= |file.bytes|
                && file.bytes[..HEADER_SIZE + |data|] == Recording(config, data)
    {
      ok := WriteSizes();
      if ok {
        PatchedIsSized(old(file.bytes), data);
        if n + 36 < TWO32 && |data| + 36 < TWO32
           && old(file.bytes) == Encode(RecordingHeader(config, n)) + (data + tail) {
          Repatched(config, n, data, tail, old(file.bytes), file.bytes);
        }
      }
    }

    /** The two writes. */
    method WriteSizes() returns (ok: bool)
      requires file.Valid() && |file.bytes| >= HEADER_SIZE
      modifies file
      ensures file.Valid() && |file.bytes| >= |old(file.bytes)|
      ensures old(file.calls) <= file.calls
      ensures ok <==> !FailsIn(file.failAt, old(file.calls), file.calls)
      ensures ok ==> file.bytes == WithSizes(old(file.bytes), recordingSize)
    {
      file.Seek(40);
      var len := file.WriteFd(LeBytes(recordingSize, 4));
      if len != 4 {
        return false;
      }
      file.Seek(4);
      var riffSize: UInt32 := Wrap32(recordingSize + 44 - 8);
      len := file.WriteFd(LeBytes(riffSize, 4));
      ok := len == 4;
    }

    /** The first part of `WavWriteFd`: the data and the counter. */
    method Append(buffer: seq<Byte>) returns (ok: bool, ghost tail: seq<Byte>)
      requires Placed()
      modifies this, file
      ensures file.Valid()
      ensures old(file.calls) <= file.calls
      ensures ok <==> !FailsIn(file.failAt, old(file.calls), file.calls)
      ensures ok ==> data == old(data) + buffer && recordingSize == Wrap32(|data|)
      ensures ok ==> |file.bytes| >= HEADER_SIZE + recordingSize
      ensures ok && old(Valid()) ==>
                file.bytes == Encode(RecordingHeader(config, |old(data)|)) + (data + tail)
    {
      tail := [];
      if Valid() {
        tail := AppendData(Encode(RecordingHeader(config, |data|)), data, file.bytes, buffer);
      }
      WrapAdd(|data|, |buffer|);
      var len := file.WriteFd(buffer);
      ok := len == |buffer|;
      if ok {
        recordingSize := Wrap32(recordingSize + len);
        data := data + buffer;
      }
    }

    /** `WavWriteFd`: appends, then patches the header and returns to the end. */
    method WavWriteFd(buffer: seq<Byte>) returns (ok: bool)
      requires Placed()
      modifies this, file
      ensures old(file.calls) <= file.calls
      ensures ok <==> !FailsIn(file.failAt, old(file.calls), file.calls)
      ensures ok ==> Placed() && data == old(data) + buffer
      ensures ok && old(Valid()) && |data| + 36 < TWO32 ==> Valid()
    {
      ghost var tail;
      ok, tail := Append(buffer);
      if !ok {
        return;
      }
      ok := PatchHeader(|old(data)|, tail);
      if !ok {
        return;
      }
      file.Seek(HEADER_SIZE + recordingSize);
    }
  }

  /** The data of a list of buffers, in order. */
  function Flatten(chunks: seq<seq<Byte>>): seq<Byte> {
    if chunks == [] then [] else Flatten(chunks[..|chunks| - 1]) + chunks[|chunks| - 1]
  }

  lemma {:induction false} FlattenPrefix(chunks: seq<seq<Byte>>, k: nat)
    requires k <= |chunks|
    ensures |Flatten(chunks[..k])| <= |Flatten(chunks)|
  {
    if k == |chunks| {
      assert chunks[..k] == chunks;
    } else {
      var shorter := chunks[..|chunks| - 1];
      assert chunks[..k] == shorter[..k];
      FlattenPrefix(shorter, k);
    }
  }

  /** A recording session: the header, then one `WavWriteFd` for every captured buffer.  When all
      writes succeed the file begins with the whole recording and the position is at its end. */
  method Record(file: MediaFile, config: Pcm, chunks: seq<seq<Byte>>) returns (ok: bool)
    requires file.Valid() && file.pos == 0
    modifies file
    ensures old(file.calls) <= file.calls
    ensures ok <==> !FailsIn(file.failAt, old(file.calls), file.calls)
    ensures ok ==> Sized(file.bytes, |Flatten(chunks)|)
    ensures ok && |Flatten(chunks)| + 36 < TWO32 ==>
              && file.pos == HEADER_SIZE + |Flatten(chunks)| <= |file.bytes|
              && file.bytes[..file.pos] == Recording(config, Flatten(chunks))
  {
    var recorder := new WavRecorder(file, config);
    ok := recorder.SetWavHeader();
    if !ok {
      return;
    }
    for i := 0 to |chunks|
      invariant fresh(recorder) && recorder.file == file && recorder.config == config
      invariant recorder.Placed() && recorder.data == Flatten(chunks[..i])
      invariant old(file.calls) <= file.calls
      invariant !FailsIn(file.failAt, old(file.calls), file.calls)
      invariant |Flatten(chunks)| + 36 < TWO32 ==> recorder.Valid()
    {
      assert chunks[..i + 1][..i] == chunks[..i];
      FlattenPrefix(chunks, i + 1);
      ok := recorder.WavWriteFd(chunks[i]);
      if !ok {
        return;
      }
    }
    assert chunks[..|chunks|] == chunks;
    ok := true;
  }

  /** A header tells the sizes of n data bytes if and only if n + 36 is below 2^32. */
  lemma SizesTrueIff(f: seq<Byte>, n: nat)
    requires Sized(f, n)
    ensures Word(f, 4) == n + 36 && Word(f, 40) == n <==> n + 36 < TWO32
  {
  }

  // ---- playing -----------------------------------------------------------------------------

  predicate Recognized(h: Header) {
    && h.riffId == ID_RIFF && h.riffFmt == ID_WAVE && h.fmtId == ID_FMT
    && h.audioFormat == FORMAT_PCM && h.fmtSize == 16
  }

  /** What a player makes of the bytes at its position. */
  function Recognize(s: seq<Byte>): Option<Pcm> {
    if |s| < HEADER_SIZE then None
    else
      var h := Decode(s[..HEADER_SIZE]);
      if Recognized(h) then Some(Pcm(h.sampleRate, h.channelsCount, h.bitsPerSample)) else None
  }

  /** Four and two bytes as numbers, written out. */
  lemma WordValue(s: seq<Byte>, at: nat)
    requires at + 4 <= |s|
    ensures Word(s, at) as int == s[at] as int + 0x100 * s[at + 1] as int
                                  + 0x1_0000 * s[at + 2] as int + 0x100_0000 * s[at + 3] as int
  {
    var t := s[at..at + 4];
    LeStep(t, 0); LeStep(t, 1); LeStep(t, 2); LeStep(t, 3);
    assert t[0..] == t && t[4..] == [];
  }

  lemma HalfValue(s: seq<Byte>, at: nat)
    requires at + 2 <= |s|
    ensures Half(s, at) as int == s[at] as int + 0x100 * s[at + 1] as int
  {
    var t := s[at..at + 2];
    LeStep(t, 0); LeStep(t, 1);
    assert t[0..] == t && t[2..] == [];
  }

  /** A header a player accepts, byte by byte: "RIFF", "WAVE", "fmt ", a format part of sixteen
      bytes and the number of PCM. */
  predicate Acceptable(s: seq<Byte>) {
    && |s| >= 44
    && s[0] == 0x52 && s[1] == 0x49 && s[2] == 0x46 && s[3] == 0x46
    && s[8] == 0x57 && s[9] == 0x41 && s[10] == 0x56 && s[11] == 0x45
    && s[12] == 0x66 && s[13] == 0x6D && s[14] == 0x74 && s[15] == 0x20
    && s[16] == 16 && s[17] == 0 && s[18] == 0 && s[19] == 0
    && s[20] == 1 && s[21] == 0
  }

  lemma FourBytes(s: seq<Byte>, at: nat, n: UInt32, a: Byte, b: Byte, c: Byte, d: Byte)
    requires at + 4 <= |s| && n == a + 256 * (b + 256 * (c + 256 * d))
    ensures Word(s, at) == n <==> s[at] == a && s[at + 1] == b && s[at + 2] == c && s[at + 3] == d
  {
    var t := s[at..at + 4];
    WordValue(s, at);
    FourAre(n, a, b, c, d);
    LeBytesOfLe(t);
    assert t[0] == s[at] && t[1] == s[at + 1] && t[2] == s[at + 2] && t[3] == s[at + 3];
  }

  /** Exactly the acceptable headers are recognized, and give the numbers at their places. */
  lemma RecognizedIff(s: seq<Byte>)
    ensures Recognize(s).Some? <==> Acceptable(s)
    ensures Recognize(s).Some? ==>
              && Recognize(s).value.channels as int == s[22] as int + 0x100 * s[23] as int
              && Recognize(s).value.sampleRate as int
                 == s[24] as int + 0x100 * s[25] as int + 0x1_0000 * s[26] as int
                    + 0x100_0000 * s[27] as int
              && Recognize(s).value.bits as int == s[34] as int + 0x100 * s[35] as int
  {
    if |s| >= 44 {
      var h := s[..44];
      FourBytes(h, 0, ID_RIFF, 0x52, 0x49, 0x46, 0x46);
      FourBytes(h, 8, ID_WAVE, 0x57, 0x41, 0x56, 0x45);
      FourBytes(h, 12, ID_FMT, 0x66, 0x6D, 0x74, 0x20);
      FourBytes(h, 16, 16, 16, 0, 0, 0);
      HalfValue(h, 20);
      HalfValue(h, 22);
      WordValue(h, 24);
      HalfValue(h, 34);
    }
  }

  /** `PlayWavFile`: on success the position is at the data; an unrecognized header is given
      back, a short file is not. */
  method PlayWavFile(file: MediaFile) returns (pcm: Option<Pcm>)
    requires file.Valid()
    modifies file`pos
    ensures file.Valid() && pcm == Recognize(file.bytes[old(file.pos)..])
    ensures pcm.Some? <==> Acceptable(file.bytes[old(file.pos)..])
    ensures pcm.Some? ==> file.pos == old(file.pos) + HEADER_SIZE
    ensures pcm.None? && old(file.pos) + HEADER_SIZE <= |file.bytes| ==> file.pos == old(file.pos)
  {
    RecognizedIff(file.bytes[file.pos..]);
    var data := file.ReadFd(HEADER_SIZE);
    if |data| != HEADER_SIZE {
      return None;
    }
    assert file.bytes[old(file.pos)..][..HEADER_SIZE] == data;
    var hdr := Decode(data);
    if hdr.riffId != ID_RIFF || hdr.riffFmt != ID_WAVE || hdr.fmtId != ID_FMT
       || hdr.audioFormat != FORMAT_PCM || hdr.fmtSize != 16 {
      file.Seek(file.pos - HEADER_SIZE);
      return None;
    }
    pcm := Some(Pcm(hdr.sampleRate, hdr.channelsCount, hdr.bitsPerSample));
  }

  /** Recorder and player agree: any file that begins with a recording is recognized and gives
      back the sampling rate, the channels and the resolution, and its header carries the size
      of the data. */
  lemma PlayerAcceptsRecording(c: Pcm, data: seq<Byte>, f: seq<Byte>)
    requires |data| + 36 < TWO32
    requires HEADER_SIZE + |data| <= |f| && f[..HEADER_SIZE + |data|] == Recording(c, data)
    ensures Recognize(f) == Some(c)
    ensures Decode(f[..HEADER_SIZE]).dataSize == |data|
    ensures Decode(f[..HEADER_SIZE]).riffSize == |data| + 36
    ensures f[HEADER_SIZE..HEADER_SIZE + |data|] == data
  {
    var h := RecordingHeader(c, |data|);
    assert f[..HEADER_SIZE] == f[..HEADER_SIZE + |data|][..HEADER_SIZE] == Encode(h);
    DecodeOfEncode(h);
    assert f[HEADER_SIZE..HEADER_SIZE + |data|] == f[..HEADER_SIZE + |data|][HEADER_SIZE..];
  }
}
