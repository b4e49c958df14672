/**
  The DTMF tone generator (components/audio/le_media.c, `PlayTone` and `MediaThread`): a
  resumable producer that cuts tones and pauses into chunks of at most one second.

  The sine wave is a parameter: any function of frequency, sampling rate and sample index.
 */
module ToneGenerator {
  import opened Basics

  type Sample = x: int | -32768 <= x < 32768

  type Oscillator = (nat, nat, nat) -> Sample

  const DTMF_SET: string := "1234567890*#abcdABCD"
  const DTMF_MAX_LEN: nat := 100
  const MAX_DURATION: nat := 5000
  const DTMF_RATE: nat := 16000

  // ---- digits and samples ------------------------------------------------------------------

  function LowFreq(digit: char): nat {
    match digit
    case '1' | '2' | '3' | 'a' | 'A' => 697
    case '4' | '5' | '6' | 'b' | 'B' => 770
    case '7' | '8' | '9' | 'c' | 'C' => 852
    case '*' | '0' | '#' | 'd' | 'D' => 941
    case _ => 0
  }

  function HighFreq(digit: char): nat {
    match digit
    case '1' | '4' | '7' | '*' => 1209
    case '2' | '5' | '8' | '0' => 1336
    case '3' | '6' | '9' | '#' => 1477
    case 'a' | 'A' | 'b' | 'B' | 'c' | 'C' | 'd' | 'D' => 1633
    case _ => 0
  }

  /** The keypad of ITU-T Q.23: rows select the low frequency, columns the high one. */
  function KeypadRow(r: nat): string
    requires r < 4
  {
    if r == 0 then "123A" else if r == 1 then "456B" else if r == 2 then "789C" else "*0#D"
  }

  function RowFrequency(r: nat): nat {
    if r == 0 then 697 else if r == 1 then 770 else if r == 2 then 852 else 941
  }

  function ColumnFrequency(c: nat): nat {
    if c == 0 then 1209 else if c == 1 then 1336 else if c == 2 then 1477 else 1633
  }

  lemma KeypadFrequencies(r: nat, c: nat)
    requires r < 4 && c < 4
    ensures |KeypadRow(r)| == 4
    ensures LowFreq(KeypadRow(r)[c]) == RowFrequency(r)
    ensures HighFreq(KeypadRow(r)[c]) == ColumnFrequency(c)
  {
    assert c == 0 || c == 1 || c == 2 || c == 3;
    assert r == 0 || r == 1 || r == 2 || r == 3;
  }

  /** `SaturateAdd16`: the low 16 bits, reread as signed, when the sum fits. */
  function SaturateAdd16(a: int, b: int): (r: Sample)
    ensures a + b > 32767 ==> r == 32767
    ensures a + b < -32768 ==> r == -32768
    ensures -32768 <= a + b <= 32767 ==> r == a + b
  {
    var tot := a + b;
    if tot > 32767 then 32767
    else if tot < -32768 then -32768
    else var low := tot % 0x1_0000; if low >= 0x8000 then low - 0x1_0000 else low
  }

  function ToneSample(osc: Oscillator, rate: nat, digit: char, i: nat): Sample {
    SaturateAdd16(osc(LowFreq(digit), rate, i), osc(HighFreq(digit), rate, i))
  }

  /** The small letters sound like the capital ones. */
  lemma SmallLetters()
    ensures LowFreq('a') == LowFreq('A') && HighFreq('a') == HighFreq('A')
    ensures LowFreq('b') == LowFreq('B') && HighFreq('b') == HighFreq('B')
    ensures LowFreq('c') == LowFreq('C') && HighFreq('c') == HighFreq('C')
    ensures LowFreq('d') == LowFreq('D') && HighFreq('d') == HighFreq('D')
  {
  }

  /** The accepted characters are exactly those that have two frequencies. */
  lemma AcceptedHaveTones(c: char)
    ensures c in DTMF_SET <==> LowFreq(c) > 0
    ensures c in DTMF_SET <==> HighFreq(c) > 0
  {
  }

  /** A sum cut off at the limits of 16 bits. */
  function Clamped(x: int): Sample {
    if x > 32767 then 32767 else if x < -32768 then -32768 else x
  }

  /** A key sounds as the sum of the waves of its row and its column. */
  lemma KeySounds(osc: Oscillator, rate: nat, r: nat, c: nat, i: nat)
    requires r < 4 && c < 4
    ensures |KeypadRow(r)| == 4
    ensures ToneSample(osc, rate, KeypadRow(r)[c], i)
            == Clamped(osc(RowFrequency(r), rate, i) as int
                       + osc(ColumnFrequency(c), rate, i) as int)
  {
    KeypadFrequencies(r, c);
  }

  // ---- what is to be heard -----------------------------------------------------------------

  /** Samples lo..hi-1 of a tone. */
  function Tone(osc: Oscillator, rate: nat, digit: char, lo: nat, hi: nat): (s: seq<Sample>)
    requires lo <= hi
    ensures |s| == hi - lo
    decreases hi - lo
  {
    if lo == hi then []
    else [ToneSample(osc, rate, digit, lo)] + Tone(osc, rate, digit, lo + 1, hi)
  }

  function Silence(n: nat): (s: seq<Sample>)
    ensures |s| == n
  {
    if n == 0 then [] else [0] + Silence(n - 1)
  }

  /** A piece to play: sampling rate, samples per tone and per pause, and the digits. */
  datatype Piece = Piece(rate: nat, tone: nat, gap: nat, pauses: bool, digits: string)

  predicate Playable(m: Piece) {
    m.rate > 0 && (m.gap > 0 ==> m.pauses)
  }

  /** Per digit: a tone, then the pause (after the last digit too). */
  function Melody(osc: Oscillator, m: Piece, from: nat): seq<Sample>
    requires from <= |m.digits|
    decreases |m.digits| - from
  {
    if from == |m.digits| then []
    else Tone(osc, m.rate, m.digits[from], 0, m.tone) + (Silence(m.gap) + Melody(osc, m, from + 1))
  }

  // ---- the melody, sample by sample --------------------------------------------------------

  /** What is heard x samples into the turn of digit number d: its tone, then silence. */
  function HeardAt(osc: Oscillator, m: Piece, d: nat, x: nat): Sample
    requires d < |m.digits|
  {
    if x < m.tone
    then Clamped(osc(LowFreq(m.digits[d]), m.rate, x) as int
                 + osc(HighFreq(m.digits[d]), m.rate, x) as int)
    else 0
  }

  /** Every digit takes its turn of tone and gap, in order, and nothing else is heard. */
  ghost predicate SoundsAs(osc: Oscillator, m: Piece, out: seq<Sample>) {
    && |out| == Turn(m, |m.digits|)
    && forall d: nat, x: nat :: d < |m.digits| && x < m.tone + m.gap ==>
         SampleIn(m, out, d, x) == Some(HeardAt(osc, m, d, x))
  }

  /** Where the turn of digit number d begins. */
  function Turn(m: Piece, d: nat): nat {
    if d == 0 then 0 else Turn(m, d - 1) + (m.tone + m.gap)
  }

  lemma {:induction false} TurnIs(m: Piece, d: nat)
    ensures Turn(m, d) == d * (m.tone + m.gap)
  {
    if d > 0 {
      TurnIs(m, d - 1);
    }
  }

  function SampleIn(m: Piece, out: seq<Sample>, d: nat, x: nat): Option<Sample> {
    if Turn(m, d) + x < |out| then Some(out[Turn(m, d) + x]) else None
  }

  lemma {:induction false} ToneAt(osc: Oscillator, rate: nat, digit: char, lo: nat, hi: nat, x: nat)
    requires lo + x < hi
    ensures Tone(osc, rate, digit, lo, hi)[x] == ToneSample(osc, rate, digit, lo + x)
    decreases x
  {
    if x > 0 {
      ToneAt(osc, rate, digit, lo + 1, hi, x - 1);
    }
  }

  lemma {:induction false} SilenceAt(n: nat, x: nat)
    requires x < n
    ensures Silence(n)[x] == 0
  {
    if x > 0 {
      SilenceAt(n - 1, x - 1);
    }
  }

  lemma {:induction false} MelodyLength(osc: Oscillator, m: Piece, from: nat)
    requires from <= |m.digits|
    ensures |Melody(osc, m, from)| == Turn(m, |m.digits| - from)
    decreases |m.digits| - from
  {
    if from < |m.digits| {
      MelodyLength(osc, m, from + 1);
    }
  }

  lemma {:induction false} MelodyAt(osc: Oscillator, m: Piece, from: nat, d: nat, x: nat)
    requires from + d < |m.digits| && x < m.tone + m.gap
    ensures SampleIn(m, Melody(osc, m, from), d, x) == Some(HeardAt(osc, m, from + d, x))
    decreases d
  {
    if d == 0 {
      FirstTurn(osc, m, from, x, Melody(osc, m, from + 1));
    } else {
      MelodyAt(osc, m, from + 1, d - 1, x);
      LaterTurn(m, Tone(osc, m.rate, m.digits[from], 0, m.tone), Silence(m.gap),
                Melody(osc, m, from + 1), d, x);
    }
  }

  lemma FirstTurn(osc: Oscillator, m: Piece, from: nat, x: nat, rest: seq<Sample>)
    requires from < |m.digits| && x < m.tone + m.gap
    ensures var all := Tone(osc, m.rate, m.digits[from], 0, m.tone) + (Silence(m.gap) + rest);
            SampleIn(m, all, 0, x) == Some(HeardAt(osc, m, from, x))
  {
    if x < m.tone {
      ToneAt(osc, m.rate, m.digits[from], 0, m.tone, x);
    } else {
      SilenceAt(m.gap, x - m.tone);
    }
  }

  lemma LaterTurn(m: Piece, tone: seq<Sample>, gap: seq<Sample>, rest: seq<Sample>, d: nat, x: nat)
    requires |tone| == m.tone && |gap| == m.gap && d > 0 && SampleIn(m, rest, d - 1, x).Some?
    ensures SampleIn(m, tone + (gap + rest), d, x) == SampleIn(m, rest, d - 1, x)
  {
    var k := Turn(m, d - 1) + x;
    assert (tone + (gap + rest))[|tone| + |gap| + k] == rest[k];
  }

  /** The melody sounds as it should. */
  lemma MelodySounds(osc: Oscillator, m: Piece)
    ensures SoundsAs(osc, m, Melody(osc, m, 0))
  {
    MelodyLength(osc, m, 0);
    forall d: nat, x: nat | d < |m.digits| && x < m.tone + m.gap
      ensures SampleIn(m, Melody(osc, m, 0), d, x) == Some(HeardAt(osc, m, d, x))
    {
      MelodyAt(osc, m, 0, d, x);
    }
  }

  // ---- the producer as a value -------------------------------------------------------------

  /** Where the producer is: in a pause or in tone number `digit`, `count` samples into it. */
  datatype Progress = Progress(inPause: bool, digit: nat, count: nat)

  predicate InPiece(m: Piece, p: Progress) {
    && p.digit <= |m.digits|
    && (p.inPause ==> m.pauses)
    && p.count <= Length(m, p)
    && (p.count == Length(m, p) ==> p.count == 0)
    && (AtEnd(m, p) ==> p.count == 0)
  }

  predicate AtEnd(m: Piece, p: Progress) {
    !p.inPause && p.digit == |m.digits|
  }

  /** The length of the tone or pause under way. */
  function Length(m: Piece, p: Progress): nat {
    if p.inPause then m.gap else m.tone
  }

  /** What is still to be produced. */
  function Left(osc: Oscillator, m: Piece, p: Progress): seq<Sample>
    requires InPiece(m, p)
  {
    if AtEnd(m, p) then []
    else if p.inPause then Silence(m.gap - p.count) + Melody(osc, m, p.digit)
    else Tone(osc, m.rate, m.digits[p.digit], p.count, m.tone)
         + (Silence(m.gap) + Melody(osc, m, p.digit + 1))
  }

  /** The next chunk: the rest of the tone or pause, but at most one second of it. */
  function ChunkLength(m: Piece, p: Progress): nat
    requires InPiece(m, p)
  {
    if AtEnd(m, p) then 0
    else if Length(m, p) - p.count > m.rate then m.rate else Length(m, p) - p.count
  }

  function Chunk(osc: Oscillator, m: Piece, p: Progress): seq<Sample>
    requires InPiece(m, p)
  {
    if AtEnd(m, p) then []
    else if p.inPause then Silence(ChunkLength(m, p))
    else Tone(osc, m.rate, m.digits[p.digit], p.count, p.count + ChunkLength(m, p))
  }

  function Advance(m: Piece, p: Progress): Progress
    requires InPiece(m, p)
  {
    var count := p.count + ChunkLength(m, p);
    if AtEnd(m, p) then p
    else if count < Length(m, p) then p.(count := count)
    else if p.inPause then Progress(false, p.digit, 0)
    else Progress(m.pauses, p.digit + 1, 0)
  }

  /** Any sequence with the samples of a tone is that tone. */
  lemma {:induction false} IsTone(osc: Oscillator, rate: nat, digit: char, lo: nat, hi: nat,
                                  s: seq<Sample>)
    requires lo <= hi && |s| == hi - lo
    requires forall k :: 0 <= k < |s| ==> s[k] == ToneSample(osc, rate, digit, lo + k)
    ensures s == Tone(osc, rate, digit, lo, hi)
    decreases hi - lo
  {
    if lo < hi {
      forall k | 0 <= k < |s| - 1
        ensures s[1..][k] == ToneSample(osc, rate, digit, lo + 1 + k)
      {
        assert s[k + 1] == ToneSample(osc, rate, digit, lo + (k + 1));
      }
      IsTone(osc, rate, digit, lo + 1, hi, s[1..]);
      assert s == [s[0]] + s[1..];
    }
  }

  lemma {:induction false} IsSilence(s: seq<Sample>)
    requires forall k :: 0 <= k < |s| ==> s[k] == 0
    ensures s == Silence(|s|)
  {
    if s != [] {
      IsSilence(s[1..]);
      assert s == [s[0]] + s[1..];
    }
  }

  lemma {:induction false} ToneSplit(osc: Oscillator, rate: nat, digit: char, a: nat, b: nat,
                                     c: nat, tail: seq<Sample>)
    requires a <= b <= c
    ensures Tone(osc, rate, digit, a, b) + (Tone(osc, rate, digit, b, c) + tail)
            == Tone(osc, rate, digit, a, c) + tail
    decreases b - a
  {
    if a < b {
      ToneSplit(osc, rate, digit, a + 1, b, c, tail);
      var head, one, two := [ToneSample(osc, rate, digit, a)], Tone(osc, rate, digit, a + 1, b),
                            Tone(osc, rate, digit, b, c) + tail;
      assert head + one + two == head + (one + two);
      assert head + Tone(osc, rate, digit, a + 1, c) + tail
             == head + (Tone(osc, rate, digit, a + 1, c) + tail);
    }
  }

  lemma {:induction false} SilenceSplit(a: nat, b: nat, tail: seq<Sample>)
    ensures Silence(a) + (Silence(b) + tail) == Silence(a + b) + tail
  {
    if a > 0 {
      SilenceSplit(a - 1, b, tail);
      var head: seq<Sample> := [0];
      assert head + Silence(a - 1) + (Silence(b) + tail)
             == head + (Silence(a - 1) + (Silence(b) + tail));
      assert head + Silence(a - 1 + b) + tail == head + (Silence(a - 1 + b) + tail);
    }
  }

  /** What is left after a tone chunk: more of the tone... */
  lemma ToneGoing(osc: Oscillator, m: Piece, p: Progress)
    requires InPiece(m, p) && !AtEnd(m, p) && !p.inPause && p.count + ChunkLength(m, p) < m.tone
    ensures InPiece(m, Advance(m, p))
    ensures Left(osc, m, Advance(m, p))
            == Tone(osc, m.rate, m.digits[p.digit], p.count + ChunkLength(m, p), m.tone)
               + (Silence(m.gap) + Melody(osc, m, p.digit + 1))
  {
  }

  /** ...or the pause and the other digits. */
  lemma ToneDone(osc: Oscillator, m: Piece, p: Progress)
    requires Playable(m) && InPiece(m, p) && !AtEnd(m, p) && !p.inPause
    requires p.count + ChunkLength(m, p) == m.tone
    ensures InPiece(m, Advance(m, p))
    ensures Left(osc, m, Advance(m, p)) == Silence(m.gap) + Melody(osc, m, p.digit + 1)
  {
    if !m.pauses {
      var next := Melody(osc, m, p.digit + 1);
      assert Silence(m.gap) + next == next;
    }
  }

  lemma ToneRest(osc: Oscillator, m: Piece, p: Progress)
    requires Playable(m) && InPiece(m, p) && !AtEnd(m, p) && !p.inPause
    ensures InPiece(m, Advance(m, p)) && p.count + ChunkLength(m, p) <= m.tone
    ensures Left(osc, m, Advance(m, p))
            == Tone(osc, m.rate, m.digits[p.digit], p.count + ChunkLength(m, p), m.tone)
               + (Silence(m.gap) + Melody(osc, m, p.digit + 1))
  {
    if p.count + ChunkLength(m, p) == m.tone {
      ToneDone(osc, m, p);
      var tail := Silence(m.gap) + Melody(osc, m, p.digit + 1);
      assert Tone(osc, m.rate, m.digits[p.digit], m.tone, m.tone) + tail == tail;
    } else {
      ToneGoing(osc, m, p);
    }
  }

  /** What is left after a pause chunk. */
  lemma PauseRest(osc: Oscillator, m: Piece, p: Progress)
    requires Playable(m) && InPiece(m, p) && p.inPause
    ensures InPiece(m, Advance(m, p))
    ensures Left(osc, m, Advance(m, p))
            == Silence(m.gap - p.count - ChunkLength(m, p)) + Melody(osc, m, p.digit)
  {
    var n := ChunkLength(m, p);
    if p.count + n == m.gap {
      var tail := Melody(osc, m, p.digit);
      assert Silence(0) + tail == tail;
    }
  }

  lemma PauseChunkThenRest(osc: Oscillator, m: Piece, p: Progress)
    requires Playable(m) && InPiece(m, p) && p.inPause
    ensures InPiece(m, Advance(m, p))
    ensures Chunk(osc, m, p) + Left(osc, m, Advance(m, p)) == Left(osc, m, p)
  {
    PauseRest(osc, m, p);
    PauseGoesOn(Chunk(osc, m, p), Left(osc, m, Advance(m, p)), ChunkLength(m, p),
                m.gap - p.count - ChunkLength(m, p), Melody(osc, m, p.digit));
  }

  lemma PauseGoesOn(chunk: seq<Sample>, rest: seq<Sample>, a: nat, b: nat, tail: seq<Sample>)
    requires chunk == Silence(a) && rest == Silence(b) + tail
    ensures chunk + rest == Silence(a + b) + tail
  {
    SilenceSplit(a, b, tail);
  }

  lemma ToneChunkThenRest(osc: Oscillator, m: Piece, p: Progress)
    requires Playable(m) && InPiece(m, p) && !p.inPause && !AtEnd(m, p)
    ensures InPiece(m, Advance(m, p))
    ensures Chunk(osc, m, p) + Left(osc, m, Advance(m, p)) == Left(osc, m, p)
  {
    ToneRest(osc, m, p);
    ToneLeft(osc, m, p);
    ToneGoesOn(osc, m.rate, m.digits[p.digit], Chunk(osc, m, p), Left(osc, m, Advance(m, p)),
               Left(osc, m, p), p.count, p.count + ChunkLength(m, p), m.tone,
               Silence(m.gap) + Melody(osc, m, p.digit + 1));
  }

  lemma ToneLeft(osc: Oscillator, m: Piece, p: Progress)
    requires InPiece(m, p) && !p.inPause && !AtEnd(m, p)
    ensures p.count + ChunkLength(m, p) <= m.tone
    ensures Chunk(osc, m, p)
            == Tone(osc, m.rate, m.digits[p.digit], p.count, p.count + ChunkLength(m, p))
    ensures Left(osc, m, p) == Tone(osc, m.rate, m.digits[p.digit], p.count, m.tone)
                               + (Silence(m.gap) + Melody(osc, m, p.digit + 1))
  {
  }

  lemma ToneGoesOn(osc: Oscillator, rate: nat, digit: char, chunk: seq<Sample>, rest: seq<Sample>,
                   whole: seq<Sample>, a: nat, b: nat, c: nat, tail: seq<Sample>)
    requires a <= b <= c
    requires chunk == Tone(osc, rate, digit, a, b) && rest == Tone(osc, rate, digit, b, c) + tail
    requires whole == Tone(osc, rate, digit, a, c) + tail
    ensures chunk + rest == whole
  {
    ToneSplit(osc, rate, digit, a, b, c, tail);
  }

  /** A chunk and what is left after it make up what was left before it. */
  lemma ChunkThenRest(osc: Oscillator, m: Piece, p: Progress)
    requires Playable(m) && InPiece(m, p)
    ensures InPiece(m, Advance(m, p))
    ensures Chunk(osc, m, p) + Left(osc, m, Advance(m, p)) == Left(osc, m, p)
  {
    if AtEnd(m, p) {
    } else if p.inPause {
      PauseChunkThenRest(osc, m, p);
    } else {
      ToneChunkThenRest(osc, m, p);
    }
  }

  /** The number of chunks of at most one second in n samples. */
  function Chunks(n: nat, rate: nat): nat
    requires rate > 0
  {
    if n == 0 then 0 else if n <= rate then 1 else 1 + Chunks(n - rate, rate)
  }

  /** How many more calls return samples. */
  function MelodyCalls(m: Piece, from: nat): nat
    requires m.rate > 0 && from <= |m.digits|
    decreases |m.digits| - from
  {
    if from == |m.digits| then 0
    else Chunks(m.tone, m.rate) + Chunks(m.gap, m.rate) + MelodyCalls(m, from + 1)
  }

  function CallsLeft(m: Piece, p: Progress): nat
    requires m.rate > 0 && InPiece(m, p)
  {
    if AtEnd(m, p) then 0
    else if p.inPause then Chunks(m.gap - p.count, m.rate) + MelodyCalls(m, p.digit)
    else Chunks(m.tone - p.count, m.rate) + Chunks(m.gap, m.rate) + MelodyCalls(m, p.digit + 1)
  }

  lemma OneCallLess(m: Piece, p: Progress)
    requires Playable(m) && InPiece(m, p)
    ensures InPiece(m, Advance(m, p))
    ensures CallsLeft(m, Advance(m, p))
            == CallsLeft(m, p) - if ChunkLength(m, p) == 0 then 0 else 1
  {
  }

  lemma {:induction false} ChunksBound(n: nat, rate: nat, k: nat)
    requires rate > 0 && n <= k * rate
    ensures Chunks(n, rate) <= k
    decreases n
  {
    if n > rate {
      assert k >= 1;
      assert n - rate <= (k - 1) * rate;
      ChunksBound(n - rate, rate, k - 1);
    } else if n > 0 {
      assert k >= 1;
    }
  }

  lemma {:induction false} CallsBound(m: Piece, from: nat, k: nat)
    requires m.rate > 0 && from <= |m.digits|
    requires Chunks(m.tone, m.rate) + Chunks(m.gap, m.rate) <= k
    ensures MelodyCalls(m, from) <= k * (|m.digits| - from)
    decreases |m.digits| - from
  {
    if from < |m.digits| {
      CallsBound(m, from + 1, k);
    }
  }

  // ---- the producer ------------------------------------------------------------------------

  datatype Result = Ok | Underflow | Fault

  /** `sampleRate * ms / 1000` in 32-bit arithmetic that does not wrap. */
  predicate FitsWord(rate: nat, ms: nat) {
    rate * ms < 0x1_0000_0000 && rate + rate * ms / 1000 < 0x1_0000_0000
  }

  function Samples(rate: nat, ms: nat): nat {
    rate * ms / 1000
  }

  class DtmfParams {
    const osc: Oscillator
    const sampleRate: UInt32
    const duration: UInt32
    const pause: UInt32
    const dtmf: string
    const bufferSize: UInt32
    var playPause: bool
    var currentDtmf: UInt32
    var currentSampleCount: UInt32

    ghost function Music(): Piece {
      Piece(sampleRate, Samples(sampleRate, duration), Samples(sampleRate, pause), pause > 0, dtmf)
    }

    ghost function Position(): Progress
      reads this
    {
      Progress(playPause, currentDtmf, currentSampleCount)
    }

    ghost predicate Valid()
      reads this
    {
      && 0 < sampleRate && 2 * sampleRate < 0x1_0000_0000
      && FitsWord(sampleRate, duration) && FitsWord(sampleRate, pause)
      && |dtmf| < 0x1_0000_0000
      && Playable(Music()) && InPiece(Music(), Position())
    }

    /** The parameters as `le_media_PlayDtmf` and `InitPlayDtmf` set them. */
    constructor (osc: Oscillator, rate: UInt32, digits: string, duration: UInt32, pause: UInt32)
      requires 0 < rate && 2 * rate < 0x1_0000_0000 && |digits| < 0x1_0000_0000
      requires FitsWord(rate, duration) && FitsWord(rate, pause)
      ensures Valid() && Position() == Progress(false, 0, 0)
      ensures this.osc == osc && sampleRate == rate && this.duration == duration
      ensures this.pause == pause && dtmf == digits && bufferSize == 2 * rate
    {
      this.osc, sampleRate, this.duration, this.pause := osc, rate, duration, pause;
      dtmf, bufferSize := digits, 2 * rate;
      playPause, currentDtmf, currentSampleCount := false, 0, 0;
    }

    method FillSilence(buffer: array<Sample>, n: nat)
      requires n <= buffer.Length
      modifies buffer
      ensures buffer[..n] == Silence(n)
    {
      for i := 0 to n
        invariant forall k :: 0 <= k < i ==> buffer[k] == 0
      {
        buffer[i] := 0;
      }
      IsSilence(buffer[..n]);
    }

    /** The sample loop: from the current sample to the end of the second or of the tone. */
    method FillTone(buffer: array<Sample>, digit: char, sampleOneSecond: UInt32,
                    samplesCount: UInt32) returns (i: UInt32)
      requires sampleOneSecond == currentSampleCount + sampleRate
      requires currentSampleCount <= samplesCount
      requires sampleRate <= buffer.Length
      modifies buffer
      ensures i == if sampleOneSecond < samplesCount then sampleOneSecond else samplesCount
      ensures buffer[..i - currentSampleCount]
              == Tone(osc, sampleRate, digit, currentSampleCount, i)
    {
      i := currentSampleCount;
      var dataPtr := 0;
      while i < sampleOneSecond && i < samplesCount
        invariant currentSampleCount <= i <= sampleOneSecond && i <= samplesCount
        invariant dataPtr == i - currentSampleCount
        invariant forall k :: 0 <= k < dataPtr ==>
                    buffer[k] == ToneSample(osc, sampleRate, digit, currentSampleCount + k)
      {
        var s1 := osc(LowFreq(digit), sampleRate, i);
        var s2 := osc(HighFreq(digit), sampleRate, i);
        buffer[dataPtr] := SaturateAdd16(s1, s2);
        dataPtr := dataPtr + 1;
        i := i + 1;
      }
      IsTone(osc, sampleRate, digit, currentSampleCount, i, buffer[..dataPtr]);
    }

    /** The next chunk of a pause, with the sample count moved on. */
    method PlayPause(buffer: array<Sample>) returns (sampleLength: UInt32)
      requires Valid() && playPause && sampleRate <= buffer.Length
      modifies `currentSampleCount, buffer
      ensures sampleLength == ChunkLength(Music(), old(Position())) <= sampleRate
      ensures buffer[..sampleLength] == Chunk(osc, Music(), old(Position()))
      ensures currentSampleCount == Advance(Music(), old(Position())).count
    {
      var samplesCount: UInt32 := sampleRate * pause / 1000;
      sampleLength := if samplesCount - currentSampleCount > sampleRate then sampleRate
                      else samplesCount - currentSampleCount;
      FillSilence(buffer, sampleLength);
      currentSampleCount := currentSampleCount + sampleLength;
      if currentSampleCount >= samplesCount {
        currentSampleCount := 0;
      }
    }

    /** The next chunk of a tone, with the sample count and the digit moved on. */
    method PlayDigit(buffer: array<Sample>) returns (sampleLength: UInt32)
      requires Valid() && !playPause && currentDtmf < |dtmf| && sampleRate <= buffer.Length
      modifies `currentSampleCount, `currentDtmf, buffer
      ensures sampleLength == ChunkLength(Music(), old(Position())) <= sampleRate
      ensures buffer[..sampleLength] == Chunk(osc, Music(), old(Position()))
      ensures currentSampleCount == Advance(Music(), old(Position())).count
      ensures currentDtmf == Advance(Music(), old(Position())).digit
    {
      var sampleOneSecond: UInt32 := sampleRate + currentSampleCount;
      var samplesCount: UInt32 := sampleRate * duration / 1000;
      sampleLength := if samplesCount - currentSampleCount > sampleRate then sampleRate
                      else samplesCount - currentSampleCount;
      var i := FillTone(buffer, dtmf[currentDtmf], sampleOneSecond, samplesCount);
      currentSampleCount := if i == samplesCount then 0 else i;
      if currentSampleCount == 0 {
        currentDtmf := currentDtmf + 1;
      }
    }

    /** `PlayTone`: all counters are 32-bit and none wraps; the chunk fits the buffer. */
    method PlayTone(buffer: array<Sample>) returns (res: Result, bufferLen: UInt32)
      requires Valid() && 2 * buffer.Length == bufferSize
      modifies this, buffer
      ensures Valid() && bufferLen <= bufferSize
      ensures res == if 2 * sampleRate > bufferSize then Fault
                     else if AtEnd(Music(), old(Position())) then Underflow else Ok
      ensures res == Fault ==> Position() == old(Position())
      ensures res != Fault ==>
                && bufferLen == 2 * ChunkLength(Music(), old(Position()))
                && buffer[..bufferLen / 2] == Chunk(osc, Music(), old(Position()))
                && Position() == Advance(Music(), old(Position()))
    {
      ChunkThenRest(osc, Music(), Position());
      if sampleRate * 2 > bufferSize {
        return Fault, 0;
      }
      var sampleLength: UInt32;
      if playPause {
        sampleLength := PlayPause(buffer);
      } else {
        if currentDtmf == |dtmf| {
          return Underflow, 0;
        }
        sampleLength := PlayDigit(buffer);
      }
      bufferLen := sampleLength * 2;
      if currentSampleCount == 0 {
        playPause := if playPause then false else pause != 0;
      }
      res := Ok;
    }
  }

  // ---- the thread and the call that starts it ----------------------------------------------

  /** The thread has come to position p: what was written and what is left make up the melody, and
      so do the calls made and those left; no write has broken the pipe. */
  ghost predicate Playing(osc: Oscillator, m: Piece, p: Progress, out: seq<Sample>, calls: nat,
                          breaksAt: Option<nat>)
  {
    && Playable(m) && InPiece(m, p)
    && out + Left(osc, m, p) == Melody(osc, m, 0)
    && calls + CallsLeft(m, p) == MelodyCalls(m, 0)
    && (breaksAt.Some? ==> calls <= breaksAt.value)
    && (m.tone == 0 ==> out == [] && p == Progress(false, 0, 0))
  }

  lemma PlayingStarts(osc: Oscillator, m: Piece, breaksAt: Option<nat>)
    requires Playable(m)
    ensures Playing(osc, m, Progress(false, 0, 0), [], 0, breaksAt)
  {
    StartLeft(osc, m);
    assert [] + Melody(osc, m, 0) == Melody(osc, m, 0);
  }

  lemma PlayingGoesOn(osc: Oscillator, m: Piece, p: Progress, out: seq<Sample>, calls: nat,
                      breaksAt: Option<nat>)
    requires Playing(osc, m, p, out, calls, breaksAt) && ChunkLength(m, p) > 0
    ensures out <= Melody(osc, m, 0) && calls + 1 <= MelodyCalls(m, 0)
    ensures InPiece(m, Advance(m, p))
    ensures breaksAt != Some(calls) ==>
              Playing(osc, m, Advance(m, p), out + Chunk(osc, m, p), calls + 1, breaksAt)
  {
    ChunkThenRest(osc, m, p);
    OneCallLess(m, p);
    Associate(out, Chunk(osc, m, p), Left(osc, m, Advance(m, p)));
    assert |Chunk(osc, m, p)| == ChunkLength(m, p);
  }

  lemma PlayingEnds(osc: Oscillator, m: Piece, p: Progress, out: seq<Sample>, calls: nat,
                    breaksAt: Option<nat>)
    requires Playing(osc, m, p, out, calls, breaksAt) && ChunkLength(m, p) == 0
    ensures out <= Melody(osc, m, 0) && (m.tone == 0 ==> out == [])
    ensures m.tone > 0 && (m.pauses ==> m.gap > 0) ==>
              out == Melody(osc, m, 0) && calls == MelodyCalls(m, 0)
  {
    if AtEnd(m, p) {
      assert Left(osc, m, p) == [];
      assert out + [] == out;
    }
  }

  /** `MediaThread` over the tone generator: reads chunks and writes them to the pipe until
      nothing more comes or a write breaks the pipe: the number of that write is a parameter.
      Whatever happens the output is a prefix of the melody.  Unbroken, the output is the melody
      and the number of calls is exactly that of its chunks and the final underflow, provided no
      tone or pause is empty; an empty tone ends the thread at once. */
  method MediaThread(d: DtmfParams, breaksAt: Option<nat>)
    returns (out: seq<Sample>, calls: nat, broken: bool)
    requires d.Valid() && d.bufferSize == 2 * d.sampleRate
    requires d.Position() == Progress(false, 0, 0)
    modifies d
    ensures broken ==> breaksAt == Some(calls - 1) && calls <= MelodyCalls(d.Music(), 0)
    ensures breaksAt.Some? ==> calls <= breaksAt.value + 1
    ensures out <= Melody(d.osc, d.Music(), 0)
    ensures !broken && d.Music().tone > 0 && (d.pause > 0 ==> d.Music().gap > 0) ==>
              out == Melody(d.osc, d.Music(), 0) && calls == MelodyCalls(d.Music(), 0) + 1
    ensures d.Music().tone == 0 ==> out == []
  {
    ghost var m := d.Music();
    var buffer := new Sample[d.sampleRate](_ => 0);
    out, calls, broken := [], 0, false;
    PlayingStarts(d.osc, m, breaksAt);
    var more := true;
    while more
      invariant d.Valid() && fresh(buffer)
      invariant more ==> Playing(d.osc, m, d.Position(), out, calls, breaksAt)
      invariant !more ==> Done(d.osc, m, out, calls, broken, breaksAt)
      decreases more, MelodyCalls(m, 0) - calls
    {
      out, calls, more, broken := MediaTurn(d, buffer, out, calls, breaksAt);
    }
  }

  /** One chunk: read, and written unless the pipe breaks. */
  method MediaTurn(d: DtmfParams, buffer: array<Sample>, before: seq<Sample>, made: nat,
                   breaksAt: Option<nat>)
    returns (out: seq<Sample>, calls: nat, more: bool, broken: bool)
    requires d.Valid() && d.bufferSize == 2 * d.sampleRate && buffer.Length == d.sampleRate
    requires Playing(d.osc, d.Music(), d.Position(), before, made, breaksAt)
    modifies d, buffer
    ensures d.Valid()
    ensures more ==> Playing(d.osc, d.Music(), d.Position(), out, calls, breaksAt)
    ensures calls == made + 1
    ensures !more ==> Done(d.osc, d.Music(), out, calls, broken, breaksAt)
  {
    ghost var p := d.Position();
    var data := ReadChunk(d, buffer);
    TurnMeans(d.osc, d.Music(), p, before, made, breaksAt, data);
    broken := data != [] && breaksAt == Some(made);
    more := data != [] && !broken;
    out, calls := if more then before + data else before, made + 1;
  }

  lemma TurnMeans(osc: Oscillator, m: Piece, p: Progress, before: seq<Sample>, made: nat,
                  breaksAt: Option<nat>, data: seq<Sample>)
    requires Playing(osc, m, p, before, made, breaksAt)
    requires data == Chunk(osc, m, p) && |data| == ChunkLength(m, p)
    ensures data == [] ==> Done(osc, m, before, made + 1, false, breaksAt)
    ensures data != [] && breaksAt == Some(made) ==>
              Done(osc, m, before, made + 1, true, breaksAt)
    ensures data != [] && breaksAt != Some(made) ==>
              Playing(osc, m, Advance(m, p), before + data, made + 1, breaksAt)
  {
    if data == [] {
      PlayingEnds(osc, m, p, before, made, breaksAt);
    } else {
      PlayingGoesOn(osc, m, p, before, made, breaksAt);
    }
  }

  /** What the thread reads: the next chunk, or nothing. */
  method ReadChunk(d: DtmfParams, buffer: array<Sample>) returns (data: seq<Sample>)
    requires d.Valid() && d.bufferSize == 2 * d.sampleRate && buffer.Length == d.sampleRate
    modifies d, buffer
    ensures d.Valid() && data == Chunk(d.osc, d.Music(), old(d.Position()))
    ensures |data| == ChunkLength(d.Music(), old(d.Position()))
    ensures data != [] ==> d.Position() == Advance(d.Music(), old(d.Position()))
  {
    data := [];
    var res, readLen := d.PlayTone(buffer);
    if res == Ok && readLen > 0 {
      data := buffer[..readLen / 2];
    }
  }

  /** What the thread has done when it ends. */
  ghost predicate Done(osc: Oscillator, m: Piece, out: seq<Sample>, calls: nat, broken: bool,
                       breaksAt: Option<nat>)
  {
    && Playable(m) && out <= Melody(osc, m, 0) && (m.tone == 0 ==> out == [])
    && (broken ==> breaksAt == Some(calls - 1) && calls <= MelodyCalls(m, 0))
    && (breaksAt.Some? ==> calls <= breaksAt.value + 1)
    && (!broken && m.tone > 0 && (m.pauses ==> m.gap > 0) ==>
          out == Melody(osc, m, 0) && calls == MelodyCalls(m, 0) + 1)
  }

  lemma Associate(a: seq<Sample>, b: seq<Sample>, c: seq<Sample>)
    ensures a + (b + c) == a + b + c
  {
  }

  lemma StartLeft(osc: Oscillator, m: Piece)
    requires Playable(m)
    ensures InPiece(m, Progress(false, 0, 0))
    ensures Left(osc, m, Progress(false, 0, 0)) == Melody(osc, m, 0)
    ensures CallsLeft(m, Progress(false, 0, 0)) == MelodyCalls(m, 0)
  {
  }

  /** `AreDtmfValid`: `strspn` over the set of DTMF characters reaches the end. */
  method AreDtmfValid(digits: string) returns (valid: bool)
    ensures valid <==> forall i :: 0 <= i < |digits| ==> digits[i] in DTMF_SET
  {
    var dtmfCount := 0;
    while dtmfCount < |digits| && digits[dtmfCount] in DTMF_SET
      invariant dtmfCount <= |digits|
      invariant forall i :: 0 <= i < dtmfCount ==> digits[i] in DTMF_SET
    {
      dtmfCount := dtmfCount + 1;
    }
    valid := dtmfCount == |digits|;
  }

  datatype Verdict = Played | BrokenPipe | FormatError | StreamBusy | ClientKilled

  /** The piece `le_media_PlayDtmf` plays: 16000 samples a second, 16 to the millisecond. */
  function DtmfPiece(digits: string, duration: nat, pause: nat): Piece {
    Piece(DTMF_RATE, 16 * duration, 16 * pause, pause > 0, digits)
  }

  lemma DtmfCalls(digits: string, duration: nat, pause: nat)
    requires duration <= MAX_DURATION && pause <= MAX_DURATION
    ensures MelodyCalls(DtmfPiece(digits, duration, pause), 0) <= 10 * |digits|
  {
    var m := DtmfPiece(digits, duration, pause);
    ChunksBound(m.tone, m.rate, 5);
    ChunksBound(m.gap, m.rate, 5);
    CallsBound(m, 0, 10);
  }

  /** What a melody of empty tones owes: its pauses. */
  lemma {:induction false} EmptyTones(osc: Oscillator, m: Piece, from: nat)
    requires from <= |m.digits| && m.tone == 0
    ensures Melody(osc, m, from) == [] <==> m.gap == 0 || from == |m.digits|
    decreases |m.digits| - from
  {
    if from < |m.digits| {
      EmptyTones(osc, m, from + 1);
      assert Tone(osc, m.rate, m.digits[from], 0, 0) == [];
      assert |Silence(m.gap)| == m.gap;
    }
  }

  /** `le_audio_PlayDtmf` down to the end of the media thread.  Chunking is invisible: for every
      valid digit string, positive duration and any pause within the limits the pipe receives,
      per digit, the whole tone and then the whole pause, after at most ten reads a digit.  With
      a zero duration nothing is played, so what is played is what is owed if and only if the
      duration is positive or nothing is owed. */
  method PlayDtmf(osc: Oscillator, digits: string, duration: UInt32, pause: UInt32, busy: bool,
                  breaksAt: Option<nat>)
    returns (verdict: Verdict, out: seq<Sample>, calls: nat)
    ensures verdict.ClientKilled? <==> (|| duration > 5000 || pause > 5000
                                        || (!busy && |digits| > 100))
    ensures verdict.StreamBusy? <==> !verdict.ClientKilled? && busy
    ensures verdict.FormatError? <==> !verdict.ClientKilled? && !busy
                                      && exists i :: 0 <= i < |digits| && digits[i] !in DTMF_SET
    ensures verdict.Played? ==>
              (out == Melody(osc, DtmfPiece(digits, duration, pause), 0)
               <==> duration > 0 || pause == 0 || digits == "")
    ensures verdict.Played? && duration > 0 ==>
              SoundsAs(osc, Piece(16000, 16 * duration, 16 * pause, pause > 0, digits), out)
    ensures verdict.Played? && duration > 0 ==>
              calls == MelodyCalls(DtmfPiece(digits, duration, pause), 0) + 1 <= 10 * |digits| + 1
    ensures verdict.BrokenPipe? ==>
              && breaksAt == Some(calls - 1)
              && calls <= MelodyCalls(DtmfPiece(digits, duration, pause), 0)
    ensures breaksAt.Some? ==> calls <= breaksAt.value + 1
    ensures verdict.BrokenPipe? ==> out <= Melody(osc, DtmfPiece(digits, duration, pause), 0)
    ensures duration == 0 ==> out == []
  {
    out, calls := [], 0;
    if duration > MAX_DURATION || pause > MAX_DURATION {
      return ClientKilled, [], 0;
    }
    if busy {
      return StreamBusy, [], 0;
    }
    if |digits| > DTMF_MAX_LEN {
      return ClientKilled, [], 0;
    }
    var valid := AreDtmfValid(digits);
    if !valid {
      return FormatError, [], 0;
    }
    var broken;
    out, calls, broken := PlayPiece(osc, digits, duration, pause, breaksAt);
    verdict := if broken then BrokenPipe else Played;
    MelodySounds(osc, DtmfPiece(digits, duration, pause));
  }

  /** The thread on a piece within the limits. */
  method PlayPiece(osc: Oscillator, digits: string, duration: UInt32, pause: UInt32,
                   breaksAt: Option<nat>)
    returns (out: seq<Sample>, calls: nat, broken: bool)
    requires duration <= MAX_DURATION && pause <= MAX_DURATION && |digits| <= DTMF_MAX_LEN
    ensures var m := DtmfPiece(digits, duration, pause);
            && out <= Melody(osc, m, 0) && (duration == 0 ==> out == [])
            && (broken ==> breaksAt == Some(calls - 1) && calls <= MelodyCalls(m, 0))
            && (breaksAt.Some? ==> calls <= breaksAt.value + 1)
            && (!broken ==> (out == Melody(osc, m, 0)
                             <==> duration > 0 || pause == 0 || digits == ""))
            && (!broken && duration > 0 ==>
                  calls == MelodyCalls(m, 0) + 1 <= 10 * |digits| + 1)
  {
    var d := new DtmfParams(osc, DTMF_RATE, digits, duration, pause);
    assert d.Music() == DtmfPiece(digits, duration, pause);
    DtmfCalls(digits, duration, pause);
    if duration == 0 {
      EmptyTones(osc, d.Music(), 0);
    }
    out, calls, broken := MediaThread(d, breaksAt);
  }

  /** One digit, no duration and a pause of a millisecond: sixteen samples of silence are owed. */
  lemma ZeroDurationOwesPauses(osc: Oscillator)
    ensures Melody(osc, DtmfPiece("1", 0, 1), 0) == Silence(16)
  {
    var m := DtmfPiece("1", 0, 1);
    assert Tone(osc, m.rate, '1', 0, 0) == [];
    assert Melody(osc, m, 1) == [];
  }
}
