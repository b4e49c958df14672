/**
  The segment-window patch loop (3rdParty/bsdiff-4.3/bspatch.c, SIERRA_BSPATCH branch): only
  one segment of the old image is held, and it is read again when a byte falls outside it.

  The flash reader is a parameter: any function from the number of the call and the offset to
  an answer, so it may change its mind between calls.  `Honest` is the contract it keeps.
 */
module WindowedPatch {
  import opened Basics
  import opened Bytes
  import opened BsPatch

  /** What `pa_patch_ReadSegment` answers: LE_OK with data, LE_OUT_OF_RANGE, or another code. */
  datatype Answer = Loaded(bytes: seq<Byte>) | OutOfRange | Failed

  type Reader = (nat, int) -> Answer

  /** Loaded bytes agree with the image wherever they overlap it, and a read that starts inside
      the image is short only at its end. */
  ghost predicate Faithful(bytes: seq<Byte>, o: int, image: seq<Byte>, seg: nat) {
    && |bytes| <= seg
    && (forall j :: 0 <= j < |bytes| && 0 <= o + j < |image| ==> bytes[j] == image[o + j])
    && (0 <= o < |image| ==> |bytes| == Min(seg, |image| - o))
  }

  ghost predicate Honest(reader: Reader, image: seq<Byte>, seg: nat) {
    forall k: nat, o: int :: reader(k, o).Loaded? ==> Faithful(reader(k, o).bytes, o, image, seg)
  }

  /** A reader that serves every offset inside the image and refuses every other one. */
  ghost predicate Strict(reader: Reader, image: seq<Byte>) {
    forall k: nat, o: int ::
      if 0 <= o < |image| then reader(k, o).Loaded? else reader(k, o).OutOfRange?
  }

  /** The offset read for a position: where its segment starts.  For positions before the image it
      depends on the widths of the C types. */
  type Base = int -> int

  /** A position that is not negative lies in the segment that starts at its base. */
  ghost predicate Rounds(base: Base, seg: nat) {
    forall p :: p >= 0 ==> 0 <= base(p) <= p < base(p) + seg
  }

  lemma SegmentsHold(seg: nat)
    requires seg > 0
    ensures forall p :: p >= 0 ==> 0 <= p / seg * seg <= p < p / seg * seg + seg
  {
    forall p | p >= 0
      ensures 0 <= p / seg * seg <= p < p / seg * seg + seg
    {
      DivMod(p, seg);
    }
  }

  /** Where the type of a position is wider than that of the segment size, division is signed and
      truncates toward zero. */
  function SignedBase(seg: nat): (base: Base)
    requires seg > 0
    ensures Rounds(base, seg)
  {
    SegmentsHold(seg);
    p => if p >= 0 then p / seg * seg else -(-p / seg * seg)
  }

  /** Otherwise it is unsigned, of modulus m, and the product is read as a signed number again. */
  function UnsignedBase(seg: nat, m: nat): (base: Base)
    requires seg > 0 && m > 0
    ensures Rounds(base, seg)
  {
    SegmentsHold(seg);
    p => if p >= 0 then p / seg * seg
         else var u := p % m / seg * seg; if 2 * u < m then u else u - m
  }

  predicate Reachable(size: nat, base: Base, p: int)
  {
    0 <= base(p) < size
  }

  /** All positions of an add string can be served. */
  ghost predicate AllReachable(size: nat, base: Base, lo: int, n: int)
  {
    forall p :: lo <= p < lo + n ==> Reachable(size, base, p)
  }

  /** The end of the last segment that holds image bytes. */
  function LastSegmentEnd(size: nat, seg: nat): nat
    requires seg > 0
  {
    if size == 0 then 0 else (size - 1) / seg * seg + seg
  }

  lemma ReachableForward(size: nat, seg: nat, p: nat)
    requires seg > 0
    ensures p / seg * seg < size <==> p < LastSegmentEnd(size, seg)
    ensures p / seg * seg >= 0
  {
    DivMod(p, seg);
    if size > 0 {
      DivMod(size - 1, seg);
      var a, b := p / seg, (size - 1) / seg;
      if a <= b {
        MulMono(a, b, seg);
      } else {
        MulMono(b + 1, a, seg);
        assert (b + 1) * seg == b * seg + seg;
      }
    }
  }

  lemma SignedBackward(size: nat, seg: nat, p: int)
    requires seg > 0 && p < 0
    ensures Reachable(size, SignedBase(seg), p) <==> size > 0 && -p < seg
  {
    DivMod(-p, seg);
    var a := -p / seg;
    if a >= 1 {
      MulMono(1, a, seg);
    }
  }

  /** As an unsigned number a negative position lies far beyond the image: its segment begins at a
      negative offset, as long as it is not within a segment of the end of the range. */
  lemma UnsignedBackward(size: nat, seg: nat, m: nat, p: int)
    requires seg > 0 && m > 0 && p < 0 && 2 * (seg - p) <= m
    ensures !Reachable(size, UnsignedBase(seg, m), p)
  {
    assert (p + m) % m == p + m;
    assert p % m == p + m;
    DivMod(p + m, seg);
  }

  /** With signed division the reachable positions are an interval: less than one segment before
      the image, and up to the end of its last segment. */
  lemma ReachableInterval(size: nat, seg: nat, p: int)
    requires seg > 0
    ensures Reachable(size, SignedBase(seg), p)
            <==> size > 0 && -p < seg && p < LastSegmentEnd(size, seg)
  {
    if p < 0 {
      SignedBackward(size, seg, p);
    } else {
      ReachableForward(size, seg, p);
    }
    if size > 0 {
      DivMod(size - 1, seg);
    }
  }

  /** With unsigned division the interval begins at the image. */
  lemma UnsignedReachableInterval(size: nat, seg: nat, m: nat, p: int)
    requires seg > 0 && m > 0 && (p < 0 ==> 2 * (seg - p) <= m)
    ensures Reachable(size, UnsignedBase(seg, m), p) <==> 0 <= p < LastSegmentEnd(size, seg)
  {
    if p < 0 {
      UnsignedBackward(size, seg, m, p);
    } else {
      ReachableForward(size, seg, p);
    }
  }

  // ---- the window -------------------------------------------------------------------------

  class Window {
    ghost const image: seq<Byte>
    const origImageSize: nat
    const seg: nat
    const base: Base
    const reader: Reader
    const buffer: array<Byte>
    var patchHdrOffset: int
    var oldposmax: int
    var calls: nat

    ghost predicate Valid()
      reads this, buffer
    {
      && 0 < seg == buffer.Length && Rounds(base, seg)
      && origImageSize == |image|
      && Honest(reader, image, seg)
      && 0 <= oldposmax - patchHdrOffset <= seg
      && forall j :: 0 <= j < oldposmax - patchHdrOffset && 0 <= patchHdrOffset + j < |image|
           ==> buffer[j] == image[patchHdrOffset + j]
    }

    /** A window that holds anything holds image bytes only. */
    ghost predicate InImage()
      reads this
    {
      patchHdrOffset < oldposmax ==> 0 <= patchHdrOffset && oldposmax <= |image|
    }

    constructor (ghost image: seq<Byte>, size: nat, seg: nat, base: Base, reader: Reader,
                 offset: int)
      requires size == |image| && seg > 0 && Rounds(base, seg) && Honest(reader, image, seg)
      ensures Valid() && InImage() && fresh(buffer)
      ensures this.image == image && this.seg == seg && this.base == base && this.reader == reader
    {
      this.image := image;
      this.seg := seg;
      this.base := base;
      origImageSize := size;
      this.reader := reader;
      buffer := new Byte[seg](_ => 0);
      patchHdrOffset, oldposmax := offset, offset;
      calls := 0;
    }

    /** One call of `pa_patch_ReadSegment` at the given offset. */
    method ReadSegment(offset: int) returns (answer: Answer)
      requires Valid()
      modifies this, buffer
      ensures answer == reader(old(calls), offset)
      ensures !answer.Failed? ==> Valid() && patchHdrOffset == offset
      ensures !answer.Failed? ==>
                oldposmax == offset + if answer.Loaded? then |answer.bytes| else 0
    {
      answer := reader(calls, offset);
      calls := calls + 1;
      if answer.Failed? {
        return;
      }
      var readSize := if answer.Loaded? then |answer.bytes| else 0;
      for j := 0 to readSize
        invariant forall i :: 0 <= i < j ==> buffer[i] == answer.bytes[i]
      {
        buffer[j] := answer.bytes[j];
      }
      patchHdrOffset := offset;
      oldposmax := offset + readSize;
    }

    /** Makes position p available.  On success every in-range p lies in the window, so the
        byte added next is the image's own. */
    method Fetch(p: int) returns (good: bool)
      requires Valid()
      modifies this, buffer
      ensures good ==> Valid()
      ensures good && 0 <= p < |image| ==>
                patchHdrOffset <= p < oldposmax && buffer[p - patchHdrOffset] == image[p]
      ensures Strict(reader, image) && old(InImage()) ==> good == Reachable(|image|, base, p)
      ensures Strict(reader, image) && old(InImage()) && good ==> InImage()
    {
      good := true;
      if p >= oldposmax || p < patchHdrOffset {
        var answer := ReadSegment(base(p));
        good := answer.Loaded?;
        assert buffer == this.buffer;
      }
      assert good && 0 <= p < |image| ==>
          buffer[p - patchHdrOffset] == image[patchHdrOffset + (p - patchHdrOffset)];
    }
  }

  /** Adds old data to n diff bytes, through the window. */
  method AddOldThrough(win: Window, buf: array<Byte>, newpos: nat, n: nat, oldpos: int)
    returns (good: bool)
    requires win.Valid() && win.buffer != buf && newpos + n <= buf.Length
    modifies win, win.buffer, buf
    ensures good ==> win.Valid()
    ensures good ==> buf[..] == old(buf[..newpos])
                                + AddOld(win.image, oldpos, old(buf[newpos..newpos + n]))
                                + old(buf[newpos + n..])
    ensures good ==> Added(old(buf[..]), buf[..], win.image, newpos, n, oldpos)
    ensures Strict(win.reader, win.image) && old(win.InImage()) ==>
              good == AllReachable(|win.image|, win.base, oldpos, n)
    ensures Strict(win.reader, win.image) && old(win.InImage()) && good ==> win.InImage()
  {
    ghost var d := buf[newpos..newpos + n];
    for i := 0 to n
      invariant win.Valid()
      invariant forall k :: 0 <= k < newpos || newpos + i <= k < buf.Length ==> buf[k] == old(buf[k])
      invariant forall k :: newpos <= k < newpos + i ==>
                  buf[k] == AddOld(win.image, oldpos, d)[k - newpos]
      invariant Strict(win.reader, win.image) && old(win.InImage()) ==>
                  win.InImage() && AllReachable(|win.image|, win.base, oldpos, i)
    {
      good := win.Fetch(oldpos + i);
      if !good {
        return;
      }
      if oldpos + i >= 0 && oldpos + i < win.origImageSize {
        buf[newpos + i] := AddByte(buf[newpos + i],
                                   win.buffer[oldpos - win.patchHdrOffset + i]);
      }
    }
    good := true;
    AddOldIsAdded(old(buf[..]), buf[..], win.image, newpos, n, oldpos);
  }

  // ---- the loop ---------------------------------------------------------------------------

  datatype Outcome = Patched(bytes: seq<Byte>) | Corrupt | ReadFault | TooBig

  /** The rest of the loop body; ReadFault when the window could not be moved. */
  method ApplyTripleThrough(win: Window, buf: array<Byte>, newpos: nat, oldpos: int, t: Control,
                            dpf: BzStream, epf: BzStream) returns (good: bool, fault: bool)
    requires win.Valid() && win.buffer != buf
    requires newpos <= buf.Length && dpf.Valid() && epf.Valid() && dpf != epf
    modifies win, win.buffer, buf, dpf, epf
    ensures good ==> win.Valid() && dpf.Valid() && epf.Valid() && !fault
    ensures good ==> Fits(buf.Length, old(dpf.Rest()), old(epf.Rest()), newpos, t)
    ensures !good && !fault ==> !Fits(buf.Length, old(dpf.Rest()), old(epf.Rest()), newpos, t)
    ensures good ==> dpf.Rest() == old(dpf.Rest())[t.add..]
    ensures good ==> epf.Rest() == old(epf.Rest())[t.copy..]
    ensures good ==> buf[..newpos + t.add + t.copy]
                     == Grow(win.image, old(dpf.Rest()), old(epf.Rest()), oldpos,
                             old(buf[..newpos]), t)
    ensures Strict(win.reader, win.image) && old(win.InImage()) ==>
              fault == (&& newpos + t.add <= buf.Length && Readable(old(dpf.Rest()), t.add)
                        && !AllReachable(|win.image|, win.base, oldpos, t.add))
    ensures Strict(win.reader, win.image) && old(win.InImage()) && good ==> win.InImage()
  {
    fault := false;
    if newpos + t.add > buf.Length {
      return false, false;
    }
    good := dpf.Read(buf, newpos, t.add);
    if !good {
      return;
    }
    assert buf[newpos..newpos + t.add] == old(dpf.Rest())[..t.add];
    good := AddOldThrough(win, buf, newpos, t.add, oldpos);
    if !good {
      return false, true;
    }
    ghost var added := buf[..newpos + t.add];
    assert added == old(buf[..newpos]) + AddOld(win.image, oldpos, old(dpf.Rest())[..t.add]);
    if newpos + t.add + t.copy > buf.Length {
      return false, false;
    }
    good := epf.Read(buf, newpos + t.add, t.copy);
    assert good ==> buf[..newpos + t.add + t.copy] == added + old(epf.Rest())[..t.copy];
  }

  /** What the loop does over a strict reader. */
  ghost function StrictOutcome(image: seq<Byte>, base: Base, newsize: nat, ts: seq<Control>,
                               diff: seq<Byte>, extra: seq<Byte>, oldpos: int,
                               done: seq<Byte>): Outcome
    decreases |ts|
  {
    if |done| >= newsize then Patched(done)
    else if ts == [] || |done| + ts[0].add > newsize || !Readable(diff, ts[0].add) then Corrupt
    else if !AllReachable(|image|, base, oldpos, ts[0].add) then ReadFault
    else if !Fits(newsize, diff, extra, |done|, ts[0]) then Corrupt
    else
      var t := ts[0];
      StrictOutcome(image, base, newsize, ts[1..], diff[t.add..], extra[t.copy..],
                    oldpos + t.add + t.seek, Grow(image, diff, extra, oldpos, done, t))
  }

  /** What is left to do, as a strict window sees it. */
  ghost function StrictLeft(win: Window, buf: array<Byte>, newpos: nat, oldpos: int,
                            cpf: BzStream, dpf: BzStream, epf: BzStream): Outcome
    reads buf, cpf, dpf, epf
    requires newpos <= buf.Length && cpf.Valid() && dpf.Valid() && epf.Valid()
  {
    StrictOutcome(win.image, win.base, buf.Length, ReadControls(cpf.Rest()), dpf.Rest(),
                  epf.Rest(), oldpos, buf[..newpos])
  }

  /** One turn of the loop.  It keeps the meaning of what is left to do, or gives the verdict
      that meaning has. */
  method TurnThrough(win: Window, buf: array<Byte>, newpos: nat, oldpos: int, cpf: BzStream,
              dpf: BzStream, epf: BzStream) returns (good: bool, fault: bool, t: Control)
    requires win.Valid() && win.buffer != buf && newpos < buf.Length
    requires cpf.Valid() && dpf.Valid() && epf.Valid() && cpf != dpf && cpf != epf && dpf != epf
    modifies win, win.buffer, buf, cpf, dpf, epf
    ensures good ==> win.Valid() && cpf.Valid() && dpf.Valid() && epf.Valid() && !fault
    ensures good ==> newpos <= newpos + t.add + t.copy <= buf.Length
    ensures good ==> |cpf.Rest()| < |old(cpf.Rest())|
    ensures var was := old(WholeLeft(win.image, buf, newpos, oldpos, cpf, dpf, epf));
            if good then was == WholeLeft(win.image, buf, newpos + t.add + t.copy,
                                          oldpos + t.add + t.seek, cpf, dpf, epf)
            else fault || was == None
    ensures Strict(win.reader, win.image) && old(win.InImage()) ==>
              && (good ==> win.InImage())
              && var was := old(StrictLeft(win, buf, newpos, oldpos, cpf, dpf, epf));
                 if good then was == StrictLeft(win, buf, newpos + t.add + t.copy,
                                                oldpos + t.add + t.seek, cpf, dpf, epf)
                 else was == if fault then ReadFault else Corrupt
  {
    fault := false;
    ghost var ctrl, diff, extra, done := cpf.Rest(), dpf.Rest(), epf.Rest(), buf[..newpos];
    good, t := ReadTriple(cpf);
    if !good {
      NoTripleMeans(win.image, win.base, buf.Length, ctrl, diff, extra, oldpos, done);
      return;
    }
    TripleMeans(win.image, win.base, buf.Length, ctrl, diff, extra, oldpos, done);
    assert dpf.Rest() == diff && epf.Rest() == extra && buf[..newpos] == done;
    good, fault := ApplyTripleThrough(win, buf, newpos, oldpos, t, dpf, epf);
  }

  /** What the rest of a patch means when no triple is left... */
  lemma NoTripleMeans(image: seq<Byte>, base: Base, newsize: nat, ctrl: seq<Byte>, diff: seq<Byte>,
                      extra: seq<Byte>, oldpos: int, done: seq<Byte>)
    requires |done| < newsize && |ctrl| < CONTROL_BYTES
    ensures Rebuild(image, newsize, ReadControls(ctrl), diff, extra, oldpos, done) == None
    ensures StrictOutcome(image, base, newsize, ReadControls(ctrl), diff, extra, oldpos, done)
            == Corrupt
  {
  }

  /** ...and when there is one. */
  lemma TripleMeans(image: seq<Byte>, base: Base, newsize: nat, ctrl: seq<Byte>, diff: seq<Byte>,
                    extra: seq<Byte>, oldpos: int, done: seq<Byte>)
    requires |done| < newsize && |ctrl| >= CONTROL_BYTES
    ensures var t := ReadControl(ctrl);
            Rebuild(image, newsize, ReadControls(ctrl), diff, extra, oldpos, done)
            == if !Fits(newsize, diff, extra, |done|, t) then None
               else Rebuild(image, newsize, ReadControls(ctrl[CONTROL_BYTES..]), diff[t.add..],
                            extra[t.copy..], oldpos + t.add + t.seek,
                            Grow(image, diff, extra, oldpos, done, t))
    ensures var t := ReadControl(ctrl);
            StrictOutcome(image, base, newsize, ReadControls(ctrl), diff, extra, oldpos, done)
            == if |done| + t.add > newsize || !Readable(diff, t.add) then Corrupt
               else if !AllReachable(|image|, base, oldpos, t.add) then ReadFault
               else if !Fits(newsize, diff, extra, |done|, t) then Corrupt
               else StrictOutcome(image, base, newsize, ReadControls(ctrl[CONTROL_BYTES..]),
                                  diff[t.add..], extra[t.copy..], oldpos + t.add + t.seek,
                                  Grow(image, diff, extra, oldpos, done, t))
  {
    assert ReadControls(ctrl)[1..] == ReadControls(ctrl[CONTROL_BYTES..]);
  }

  method PatchLoopThrough(win: Window, buf: array<Byte>, cpf: BzStream, dpf: BzStream, epf: BzStream)
    returns (r: Outcome)
    requires win.Valid() && win.buffer != buf
    requires cpf.Valid() && dpf.Valid() && epf.Valid() && cpf != dpf && cpf != epf && dpf != epf
    modifies win, win.buffer, buf, cpf, dpf, epf
    ensures !r.TooBig?
    ensures r.Patched? ==> old(WholeLeft(win.image, buf, 0, 0, cpf, dpf, epf)) == Some(r.bytes)
    ensures r.Corrupt? ==> old(WholeLeft(win.image, buf, 0, 0, cpf, dpf, epf)) == None
    ensures Strict(win.reader, win.image) && old(win.InImage()) ==>
              r == old(StrictLeft(win, buf, 0, 0, cpf, dpf, epf))
  {
    var oldpos, newpos := 0, 0;
    while newpos < buf.Length
      invariant 0 <= newpos <= buf.Length
      invariant win.Valid() && cpf.Valid() && dpf.Valid() && epf.Valid()
      invariant Strict(win.reader, win.image) && old(win.InImage()) ==> win.InImage()
      invariant old(WholeLeft(win.image, buf, 0, 0, cpf, dpf, epf))
                == WholeLeft(win.image, buf, newpos, oldpos, cpf, dpf, epf)
      invariant Strict(win.reader, win.image) && old(win.InImage()) ==>
                  old(StrictLeft(win, buf, 0, 0, cpf, dpf, epf))
                  == StrictLeft(win, buf, newpos, oldpos, cpf, dpf, epf)
      decreases |cpf.Rest()|
    {
      var good, fault, t := TurnThrough(win, buf, newpos, oldpos, cpf, dpf, epf);
      if fault {
        return ReadFault;
      }
      if !good {
        return Corrupt;
      }
      newpos := newpos + t.add + t.copy;
      oldpos := oldpos + t.add + t.seek;
    }
    assert buf[..newpos] == buf[..];
    r := Patched(buf[..]);
  }

  /** The patching part of `bsPatch`, from the first segment read to the finished buffer.
      Success always means the image the whole-file loop computes, and a corrupt patch is called
      corrupt by both; over a strict reader the answer is exactly `StrictOutcome`. */
  method PatchWindowed(ghost image: seq<Byte>, origImageSize: nat, seg: nat, base: Base, reader: Reader,
                       patchOffset: int, newsize: nat, ctrl: seq<Byte>, diff: seq<Byte>,
                       extra: seq<Byte>) returns (r: Outcome)
    requires origImageSize == |image| && seg > 0 && Rounds(base, seg) && Honest(reader, image, seg)
    ensures r.TooBig? <==> newsize > seg
    ensures r.Patched? ==>
              Rebuild(image, newsize, ReadControls(ctrl), diff, extra, 0, []) == Some(r.bytes)
    ensures r.Corrupt? ==>
              Rebuild(image, newsize, ReadControls(ctrl), diff, extra, 0, []) == None
    ensures r.Patched? ==>
              Meaning(image, newsize, ReadControls(ctrl), diff, extra, Some(r.bytes))
    ensures r.Corrupt? ==> Meaning(image, newsize, ReadControls(ctrl), diff, extra, None)
    ensures Strict(reader, image) && newsize <= seg ==>
              r == StrictOutcome(image, base, newsize, ReadControls(ctrl), diff, extra, 0, [])
  {
    if newsize > seg {
      return TooBig;
    }
    var win := new Window(image, origImageSize, seg, base, reader, patchOffset);
    var buf := new Byte[newsize](_ => 0);
    var answer := win.ReadSegment(patchOffset);
    if answer.Failed? {
      return ReadFault;
    }
    var cpf := new BzStream(ctrl);
    var dpf := new BzStream(diff);
    var epf := new BzStream(extra);
    assert buf[..0] == [];
    r := PatchLoopThrough(win, buf, cpf, dpf, epf);
    RebuildMeans(image, newsize, ReadControls(ctrl), diff, extra);
  }

  // ---- when the window succeeds ------------------------------------------------------------

  /** Every position the control list adds at lies in a segment of the image. */
  ghost predicate StaysInSegments(size: nat, base: Base, newsize: nat, ts: seq<Control>,
                                  oldpos: int, newpos: int)
    decreases |ts|
  {
    newpos < newsize && ts != [] ==>
      && AllReachable(size, base, oldpos, ts[0].add)
      && StaysInSegments(size, base, newsize, ts[1..], oldpos + ts[0].add + ts[0].seek,
                         newpos + ts[0].add + ts[0].copy)
  }

  /** Over a strict reader the window succeeds exactly when the whole-file loop does and the
      control list never adds outside the image's segments, and then both give one image. */
  lemma {:induction false} WindowSucceedsIff(image: seq<Byte>, base: Base, newsize: nat,
                                             ts: seq<Control>, diff: seq<Byte>,
                                             extra: seq<Byte>, oldpos: int, done: seq<Byte>)
    ensures var w := StrictOutcome(image, base, newsize, ts, diff, extra, oldpos, done);
            var r := Rebuild(image, newsize, ts, diff, extra, oldpos, done);
            && (w.Patched? <==>
                r.Some? && StaysInSegments(|image|, base, newsize, ts, oldpos, |done|))
            && (w.Patched? ==> r == Some(w.bytes))
    decreases |ts|
  {
    if |done| < newsize && ts != [] && Fits(newsize, diff, extra, |done|, ts[0]) {
      var t := ts[0];
      WindowSucceedsIff(image, base, newsize, ts[1..], diff[t.add..], extra[t.copy..],
                        oldpos + t.add + t.seek, Grow(image, diff, extra, oldpos, done, t));
    }
  }

  /** Success of the plain loop alone is not enough: a seek past the end of a one-byte image is
      harmless to it and refused by the window. */
  lemma SeekPastEndIsRefused(base: Base)
    requires Rounds(base, 2)
    ensures var ts := [Control(0, 0, 5), Control(1, 0, 0)];
            && Rebuild([7], 1, ts, [9], [], 0, []) == Some([9])
            && StrictOutcome([7], base, 1, ts, [9], [], 0, []) == ReadFault
  {
    var ts := [Control(0, 0, 5), Control(1, 0, 0)];
    assert ts[1..] == [Control(1, 0, 0)];
    assert Grow([7], [9], [], 0, [], ts[0]) == [];
    assert Grow([7], [9], [], 5, [], ts[1]) == [9];
    assert !Reachable(1, base, 5);
    assert !AllReachable(1, base, 5, 1);
  }

  /** A patch that describes the new image gives it through the window whenever its adds stay in
      the image's segments. */
  lemma WindowedReconstruct(image: seq<Byte>, target: seq<Byte>, ts: seq<Control>,
                            diff: seq<Byte>, extra: seq<Byte>, base: Base)
    requires AllEncodable(ts) && Describes(image, ts, diff, extra, 0, target)
    requires StaysInSegments(|image|, base, |target|, ts, 0, 0)
    ensures StrictOutcome(image, base, |target|, ReadControls(EncodeControls(ts)), diff, extra, 0,
                          [])
            == Patched(target)
  {
    ControlsRoundTrip(ts);
    WindowedFrom(image, target, ts, diff, extra, base);
  }

  lemma WindowedFrom(image: seq<Byte>, target: seq<Byte>, ts: seq<Control>, diff: seq<Byte>,
                     extra: seq<Byte>, base: Base)
    requires Describes(image, ts, diff, extra, 0, target)
    requires StaysInSegments(|image|, base, |target|, ts, 0, 0)
    ensures StrictOutcome(image, base, |target|, ts, diff, extra, 0, []) == Patched(target)
  {
    RebuildWhole(image, ts, diff, extra, target);
    WindowSucceedsIff(image, base, |target|, ts, diff, extra, 0, []);
  }
}
