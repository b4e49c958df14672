/**
  The whole-file patch loop (3rdParty/bsdiff-4.3/bspatch.c, plain branch).

  `Rebuild` says what a patch means: it consumes the three streams from the front and grows
  the new image at its end, with no buffer and no cursors.  `PatchWhole` is the C loop, which
  fills a fixed buffer in place.
 */
module BsPatch {
  import opened Basics
  import opened Bytes
  import opened OffCodec

  /** One control triple: add `add` bytes to old data, copy `copy` extra bytes, seek in old. */
  datatype Control = Control(add: int, copy: int, seek: int)

  const CONTROL_BYTES: nat := 24

  function ReadControl(c: seq<Byte>): Control
    requires |c| >= CONTROL_BYTES
  {
    Control(DecodeOff(c[..8]), DecodeOff(c[8..16]), DecodeOff(c[16..24]))
  }

  /** The complete triples of a control stream; leftover bytes cannot be read. */
  function ReadControls(c: seq<Byte>): seq<Control> {
    if |c| < CONTROL_BYTES then [] else [ReadControl(c)] + ReadControls(c[CONTROL_BYTES..])
  }

  /** The old byte added at position p: outside the image nothing is added. */
  function OldByte(image: seq<Byte>, p: int): Byte {
    if 0 <= p < |image| then image[p] else 0
  }

  function AddByte(a: Byte, b: Byte): Byte {
    (a as int + b as int) % 256
  }

  /** The diff string d laid over the old image from position p, bytes added mod 256. */
  function AddOld(image: seq<Byte>, p: int, d: seq<Byte>): (s: seq<Byte>)
    ensures |s| == |d|
  {
    seq(|d|, i requires 0 <= i < |d| => AddByte(d[i], OldByte(image, p + i)))
  }

  /** A count can be read from a stream: it is not negative and the bytes are there. */
  predicate Readable(stream: seq<Byte>, n: int) {
    0 <= n <= |stream|
  }

  /** A triple fits: its counts can be read and stay within the announced size. */
  predicate Fits(newsize: nat, diff: seq<Byte>, extra: seq<Byte>, newpos: nat, t: Control) {
    && newpos + t.add <= newsize && Readable(diff, t.add)
    && newpos + t.add + t.copy <= newsize && Readable(extra, t.copy)
  }

  /** The image a patch denotes, or None when the patch is corrupt. */
  function Rebuild(image: seq<Byte>, newsize: nat, ts: seq<Control>, diff: seq<Byte>,
                   extra: seq<Byte>, oldpos: int, done: seq<Byte>): Option<seq<Byte>>
    decreases |ts|
  {
    if |done| >= newsize then Some(done)
    else if ts == [] || !Fits(newsize, diff, extra, |done|, ts[0]) then None
    else
      var t := ts[0];
      Rebuild(image, newsize, ts[1..], diff[t.add..], extra[t.copy..],
              oldpos + t.add + t.seek, Grow(image, diff, extra, oldpos, done, t))
  }

  /** The new image after one triple. */
  function Grow(image: seq<Byte>, diff: seq<Byte>, extra: seq<Byte>, oldpos: int,
                done: seq<Byte>, t: Control): seq<Byte>
    requires Readable(diff, t.add) && Readable(extra, t.copy)
  {
    done + AddOld(image, oldpos, diff[..t.add]) + extra[..t.copy]
  }

  /** A patch either fails or extends what was there to exactly the announced size: every
      byte is produced once. */
  lemma {:induction false} RebuildExtends(image: seq<Byte>, newsize: nat, ts: seq<Control>,
                                          diff: seq<Byte>, extra: seq<Byte>, oldpos: int,
                                          done: seq<Byte>)
    requires |done| <= newsize
    ensures var r := Rebuild(image, newsize, ts, diff, extra, oldpos, done);
            r.Some? ==> |r.value| == newsize && done <= r.value
    decreases |ts|
  {
    if |done| < newsize && ts != [] && Fits(newsize, diff, extra, |done|, ts[0]) {
      var t := ts[0];
      var grown := Grow(image, diff, extra, oldpos, done, t);
      RebuildExtends(image, newsize, ts[1..], diff[t.add..], extra[t.copy..],
                     oldpos + t.add + t.seek, grown);
      assert done <= grown;
    }
  }

  // ---- what a patch describes ---------------------------------------------------------------

  /** Byte y of a new image comes from diff byte d at position p of the old image: it is their sum
      mod 256, or d itself outside the old image. */
  predicate Adds(image: seq<Byte>, p: int, d: Byte, y: Byte) {
    if 0 <= p < |image| then y as int == (d as int + image[p] as int) % 256 else y == d
  }

  /** The first bytes of the target come from one triple: `add` bytes from the diff bytes and the
      old image at oldpos, then `copy` bytes from the extra bytes. */
  predicate Part(image: seq<Byte>, t: Control, diff: seq<Byte>, extra: seq<Byte>, oldpos: int,
                 target: seq<Byte>)
  {
    && 0 <= t.add <= |diff| && 0 <= t.copy <= |extra| && t.add + t.copy <= |target|
    && (forall k :: 0 <= k < t.add ==> Adds(image, oldpos + k, diff[k], target[k]))
    && (forall k :: 0 <= k < t.copy ==> target[t.add + k] == extra[k])
  }

  /** The triples describe the target, part by part; the old position moves by `add` and `seek`.
      Triples beyond the end do not count. */
  predicate Describes(image: seq<Byte>, ts: seq<Control>, diff: seq<Byte>, extra: seq<Byte>,
                      oldpos: int, target: seq<Byte>)
    decreases |ts|
  {
    target != [] ==>
      && ts != [] && Part(image, ts[0], diff, extra, oldpos, target)
      && Describes(image, ts[1..], diff[ts[0].add..], extra[ts[0].copy..],
                   oldpos + ts[0].add + ts[0].seek, target[ts[0].add + ts[0].copy..])
  }

  lemma AddOldAdds(image: seq<Byte>, p: int, d: seq<Byte>, s: seq<Byte>)
    requires |s| == |d|
    ensures s == AddOld(image, p, d)
            <==> forall k :: 0 <= k < |d| ==> Adds(image, p + k, d[k], s[k])
  {
    forall k | 0 <= k < |d|
      ensures Adds(image, p + k, d[k], s[k]) <==> s[k] == AddOld(image, p, d)[k]
    {
    }
  }

  /** One triple grows the image by the part it describes, and by nothing else. */
  lemma GrowIff(image: seq<Byte>, diff: seq<Byte>, extra: seq<Byte>, oldpos: int, done: seq<Byte>,
                t: Control, target: seq<Byte>)
    requires Readable(diff, t.add) && Readable(extra, t.copy) && t.add + t.copy <= |target|
    ensures Grow(image, diff, extra, oldpos, done, t) <= done + target
            <==> Part(image, t, diff, extra, oldpos, target)
    ensures Grow(image, diff, extra, oldpos, done, t) <= done + target ==>
              Grow(image, diff, extra, oldpos, done, t) + target[t.add + t.copy..] == done + target
  {
    AddedIff(image, oldpos, diff, t.add, target);
    CopiedIff(extra, t.copy, target, t.add);
    PrefixOfThree(done, AddOld(image, oldpos, diff[..t.add]), extra[..t.copy], target);
  }

  lemma AddedIff(image: seq<Byte>, oldpos: int, diff: seq<Byte>, n: nat, target: seq<Byte>)
    requires n <= |diff| && n <= |target|
    ensures target[..n] == AddOld(image, oldpos, diff[..n])
            <==> forall k :: 0 <= k < n ==> Adds(image, oldpos + k, diff[k], target[k])
  {
    AddOldAdds(image, oldpos, diff[..n], target[..n]);
    assert forall k :: 0 <= k < n ==> target[..n][k] == target[k] && diff[..n][k] == diff[k];
  }

  lemma CopiedIff(extra: seq<Byte>, n: nat, target: seq<Byte>, at: nat)
    requires n <= |extra| && at + n <= |target|
    ensures target[at..at + n] == extra[..n]
            <==> forall k :: 0 <= k < n ==> target[at + k] == extra[k]
  {
    var copied := target[at..at + n];
    assert forall k :: 0 <= k < n ==> copied[k] == target[at + k];
    assert copied == extra[..n] <==> forall k :: 0 <= k < n ==> copied[k] == extra[..n][k];
  }

  lemma PrefixOfThree(done: seq<Byte>, a: seq<Byte>, b: seq<Byte>, target: seq<Byte>)
    requires |a| + |b| <= |target|
    ensures done + a + b <= done + target
            <==> target[..|a|] == a && target[|a|..|a| + |b|] == b
    ensures done + a + b <= done + target ==>
              done + a + b + target[|a| + |b|..] == done + target
  {
    var n := |a| + |b|;
    assert (done + target)[..|done| + n] == done + target[..n];
    assert target[..n] == target[..|a|] + target[|a|..n];
    if done + a + b <= done + target {
      assert done + (a + b) == done + target[..n];
      assert a + b == (done + (a + b))[|done|..] == (done + target[..n])[|done|..] == target[..n];
      assert a == (a + b)[..|a|] && b == (a + b)[|a|..];
    }
  }

  /** The image a patch denotes is the one it describes: no other image of the announced size is
      accepted, and none is refused. */
  lemma {:induction false} RebuildIff(image: seq<Byte>, newsize: nat, ts: seq<Control>,
                                      diff: seq<Byte>, extra: seq<Byte>, oldpos: int,
                                      done: seq<Byte>, target: seq<Byte>, whole: seq<Byte>)
    requires whole == done + target && newsize == |whole|
    ensures Rebuild(image, newsize, ts, diff, extra, oldpos, done) == Some(whole)
            <==> Describes(image, ts, diff, extra, oldpos, target)
    decreases |ts|
  {
    if target == [] {
      assert whole == done;
    } else if ts != [] && Fits(newsize, diff, extra, |done|, ts[0]) {
      var t := ts[0];
      var grown := Grow(image, diff, extra, oldpos, done, t);
      GrowIff(image, diff, extra, oldpos, done, t, target);
      if grown <= whole {
        RebuildIff(image, newsize, ts[1..], diff[t.add..], extra[t.copy..],
                   oldpos + t.add + t.seek, grown, target[t.add + t.copy..], whole);
      } else {
        ExtendsOnly(image, newsize, ts[1..], diff[t.add..], extra[t.copy..],
                    oldpos + t.add + t.seek, grown, whole);
      }
    }
  }

  lemma ExtendsOnly(image: seq<Byte>, newsize: nat, ts: seq<Control>, diff: seq<Byte>,
                    extra: seq<Byte>, oldpos: int, grown: seq<Byte>, whole: seq<Byte>)
    requires |grown| <= newsize && !(grown <= whole)
    ensures Rebuild(image, newsize, ts, diff, extra, oldpos, grown) != Some(whole)
  {
    RebuildExtends(image, newsize, ts, diff, extra, oldpos, grown);
  }

  lemma RebuildWhole(image: seq<Byte>, ts: seq<Control>, diff: seq<Byte>, extra: seq<Byte>,
                     target: seq<Byte>)
    ensures Rebuild(image, |target|, ts, diff, extra, 0, []) == Some(target)
            <==> Describes(image, ts, diff, extra, 0, target)
  {
    assert [] + target == target;
    RebuildIff(image, |target|, ts, diff, extra, 0, [], target, target);
  }

  /** What a patch of an old image means: the new image it describes, or None when it describes
      none of the announced size. */
  ghost predicate Meaning(image: seq<Byte>, newsize: nat, ts: seq<Control>, diff: seq<Byte>,
                          extra: seq<Byte>, r: Option<seq<Byte>>)
  {
    match r
    case Some(target) => |target| == newsize && Describes(image, ts, diff, extra, 0, target)
    case None => forall target: seq<Byte> :: |target| == newsize ==>
                   !Describes(image, ts, diff, extra, 0, target)
  }

  /** `Rebuild` computes the meaning. */
  lemma RebuildMeans(image: seq<Byte>, newsize: nat, ts: seq<Control>, diff: seq<Byte>,
                     extra: seq<Byte>)
    ensures Meaning(image, newsize, ts, diff, extra,
                    Rebuild(image, newsize, ts, diff, extra, 0, []))
  {
    RebuildExtends(image, newsize, ts, diff, extra, 0, []);
    var r := Rebuild(image, newsize, ts, diff, extra, 0, []);
    forall target: seq<Byte> | |target| == newsize
      ensures r == Some(target) <==> Describes(image, ts, diff, extra, 0, target)
    {
      RebuildWhole(image, ts, diff, extra, target);
    }
  }

  /** At most one image is described. */
  lemma MeaningUnique(image: seq<Byte>, ts: seq<Control>, diff: seq<Byte>, extra: seq<Byte>,
                      a: seq<Byte>, b: seq<Byte>)
    requires |a| == |b| && Describes(image, ts, diff, extra, 0, a)
    requires Describes(image, ts, diff, extra, 0, b)
    ensures a == b
  {
    RebuildWhole(image, ts, diff, extra, a);
    RebuildWhole(image, ts, diff, extra, b);
  }

  // ---- producing a patch ------------------------------------------------------------------

  /** Numbers of magnitude below 2^63 have an encoding, negative counts included. */
  predicate Encodable(t: Control) {
    -TWO63 < t.add < TWO63 && -TWO63 < t.copy < TWO63 && -TWO63 < t.seek < TWO63
  }

  predicate AllEncodable(ts: seq<Control>) {
    forall i :: 0 <= i < |ts| ==> Encodable(ts[i])
  }

  /** A producer's control list counts forward only. */
  predicate Forward(ts: seq<Control>) {
    forall i :: 0 <= i < |ts| ==> ts[i].add >= 0 && ts[i].copy >= 0
  }

  function EncodeControl(t: Control): (s: seq<Byte>)
    requires Encodable(t)
    ensures |s| == CONTROL_BYTES
  {
    EncodeOff(t.add) + EncodeOff(t.copy) + EncodeOff(t.seek)
  }

  function EncodeControls(ts: seq<Control>): seq<Byte>
    requires AllEncodable(ts)
  {
    if ts == [] then [] else EncodeControl(ts[0]) + EncodeControls(ts[1..])
  }

  /** The number of new bytes a control list covers. */
  function Covered(ts: seq<Control>): int {
    if ts == [] then 0 else ts[0].add + ts[0].copy + Covered(ts[1..])
  }

  lemma {:induction false} CoveredNonNegative(ts: seq<Control>)
    requires Forward(ts)
    ensures Covered(ts) >= 0
  {
    if ts != [] {
      CoveredNonNegative(ts[1..]);
    }
  }

  /** new minus old mod 256, the inverse of `AddOld`. */
  function SubtractOld(image: seq<Byte>, p: int, s: seq<Byte>): (d: seq<Byte>)
    ensures |d| == |s|
  {
    seq(|s|, i requires 0 <= i < |s| => (s[i] as int - OldByte(image, p + i) as int) % 256)
  }

  lemma SubtractOldMeans(image: seq<Byte>, p: int, s: seq<Byte>, k: nat)
    requires k < |s|
    ensures SubtractOld(image, p, s)[k] as int
            == if 0 <= p + k < |image| then (s[k] as int - image[p + k] as int) % 256
               else s[k] as int
    ensures Adds(image, p + k, SubtractOld(image, p, s)[k], s[k])
  {
    var y: Byte := if 0 <= p + k < |image| then image[p + k] else 0;
    ByteSum(s[k], y);
    assert OldByte(image, p + k) == y;
  }

  lemma ByteSum(x: Byte, y: Byte)
    ensures ((x as int - y as int) % 256 + y as int) % 256 == x as int
    ensures y == 0 ==> (x as int - y as int) % 256 == x as int
  {
  }

  lemma AddOfSubtract(image: seq<Byte>, p: int, s: seq<Byte>)
    ensures AddOld(image, p, SubtractOld(image, p, s)) == s
  {
    forall k | 0 <= k < |s|
      ensures Adds(image, p + k, SubtractOld(image, p, s)[k], s[k])
    {
      SubtractOldMeans(image, p, s, k);
    }
    AddOldAdds(image, p, SubtractOld(image, p, s), s);
  }

  function DiffStream(image: seq<Byte>, target: seq<Byte>, ts: seq<Control>, oldpos: int): seq<Byte>
    requires Forward(ts)
    requires Covered(ts) == |target|
  {
    if ts == [] then []
    else
      CoveredNonNegative(ts[1..]);
      var t := ts[0];
      SubtractOld(image, oldpos, target[..t.add])
      + DiffStream(image, target[t.add + t.copy..], ts[1..], oldpos + t.add + t.seek)
  }

  function ExtraStream(target: seq<Byte>, ts: seq<Control>): seq<Byte>
    requires Forward(ts)
    requires Covered(ts) == |target|
  {
    if ts == [] then []
    else
      CoveredNonNegative(ts[1..]);
      var t := ts[0];
      target[t.add..t.add + t.copy] + ExtraStream(target[t.add + t.copy..], ts[1..])
  }

  lemma ControlRoundTrip(t: Control, rest: seq<Byte>)
    requires Encodable(t)
    ensures ReadControl(EncodeControl(t) + rest) == t
  {
    DecodeOfEncode(t.add);
    DecodeOfEncode(t.copy);
    DecodeOfEncode(t.seek);
    ThreeFields(EncodeOff(t.add), EncodeOff(t.copy), EncodeOff(t.seek), rest);
  }

  lemma ThreeFields(a: seq<Byte>, b: seq<Byte>, d: seq<Byte>, rest: seq<Byte>)
    requires |a| == |b| == |d| == 8
    ensures var c := a + b + d + rest;
            c[..8] == a && c[8..16] == b && c[16..24] == d
  {
  }

  /** Every control list survives the encoding, also one the loop then finds corrupt. */
  lemma {:induction false} ControlsRoundTrip(ts: seq<Control>)
    requires AllEncodable(ts)
    ensures ReadControls(EncodeControls(ts)) == ts
  {
    if ts != [] {
      ControlsRoundTrip(ts[1..]);
      ReadFirst(EncodeControl(ts[0]), EncodeControls(ts[1..]));
      ControlRoundTrip(ts[0], EncodeControls(ts[1..]));
      assert ts == [ts[0]] + ts[1..];
    }
  }

  lemma ReadFirst(first: seq<Byte>, rest: seq<Byte>)
    requires |first| == CONTROL_BYTES
    ensures ReadControls(first + rest) == [ReadControl(first + rest)] + ReadControls(rest)
  {
    assert (first + rest)[CONTROL_BYTES..] == rest;
  }

  /** How the first triple splits the two data streams. */
  lemma StreamHeads(image: seq<Byte>, target: seq<Byte>, ts: seq<Control>, oldpos: int)
    requires Forward(ts) && ts != []
    requires Covered(ts) == |target|
    ensures ts[0].add + ts[0].copy <= |target|
    ensures var t := ts[0];
            var diff := DiffStream(image, target, ts, oldpos);
            var extra := ExtraStream(target, ts);
            var rest := target[t.add + t.copy..];
            && Readable(diff, t.add) && Readable(extra, t.copy)
            && diff[..t.add] == SubtractOld(image, oldpos, target[..t.add])
            && diff[t.add..] == DiffStream(image, rest, ts[1..], oldpos + t.add + t.seek)
            && extra[..t.copy] == target[t.add..t.add + t.copy]
            && extra[t.copy..] == ExtraStream(rest, ts[1..])
  {
    CoveredNonNegative(ts[1..]);
  }

  /** The streams cut from a target describe it. */
  lemma {:induction false} ProducedDescribes(image: seq<Byte>, target: seq<Byte>,
                                             ts: seq<Control>, oldpos: int)
    requires Forward(ts) && Covered(ts) == |target|
    ensures Describes(image, ts, DiffStream(image, target, ts, oldpos), ExtraStream(target, ts),
                      oldpos, target)
    decreases |ts|
  {
    if target != [] {
      var t := ts[0];
      var diff, extra := DiffStream(image, target, ts, oldpos), ExtraStream(target, ts);
      StreamHeads(image, target, ts, oldpos);
      CutPart(image, target, diff, extra, oldpos, t);
      ProducedDescribes(image, target[t.add + t.copy..], ts[1..], oldpos + t.add + t.seek);
    }
  }

  /** Data cut from the target makes a part of it. */
  lemma CutPart(image: seq<Byte>, target: seq<Byte>, diff: seq<Byte>, extra: seq<Byte>, oldpos: int,
                t: Control)
    requires Readable(diff, t.add) && Readable(extra, t.copy) && t.add + t.copy <= |target|
    requires diff[..t.add] == SubtractOld(image, oldpos, target[..t.add])
    requires extra[..t.copy] == target[t.add..t.add + t.copy]
    ensures Part(image, t, diff, extra, oldpos, target)
  {
    AddOfSubtract(image, oldpos, target[..t.add]);
    AddedIff(image, oldpos, diff, t.add, target);
    CopiedIff(extra, t.copy, target, t.add);
  }

  /** Reconstruction: whatever the old image, the new image and the control list, streams that
      describe the new image rebuild exactly it, also from the middle of a patch. */
  lemma ReconstructFrom(image: seq<Byte>, newsize: nat, target: seq<Byte>, ts: seq<Control>,
                        diff: seq<Byte>, extra: seq<Byte>, oldpos: int, done: seq<Byte>)
    requires Describes(image, ts, diff, extra, oldpos, target) && newsize == |done| + |target|
    ensures Rebuild(image, newsize, ts, diff, extra, oldpos, done) == Some(done + target)
  {
    RebuildIff(image, newsize, ts, diff, extra, oldpos, done, target, done + target);
  }

  /** The same on the bytes of a patch file, for the streams built as new minus old mod 256. */
  lemma Reconstruct(image: seq<Byte>, target: seq<Byte>, ts: seq<Control>)
    requires AllEncodable(ts) && Forward(ts)
    requires Covered(ts) == |target|
    ensures Rebuild(image, |target|, ReadControls(EncodeControls(ts)),
                    DiffStream(image, target, ts, 0), ExtraStream(target, ts), 0, [])
            == Some(target)
  {
    ControlsRoundTrip(ts);
    ProducedDescribes(image, target, ts, 0);
    ReconstructWhole(image, target, EncodeControls(ts), ts, DiffStream(image, target, ts, 0),
                     ExtraStream(target, ts));
  }

  lemma ReconstructWhole(image: seq<Byte>, target: seq<Byte>, ctrl: seq<Byte>, ts: seq<Control>,
                         diff: seq<Byte>, extra: seq<Byte>)
    requires ReadControls(ctrl) == ts && Describes(image, ts, diff, extra, 0, target)
    ensures Rebuild(image, |target|, ReadControls(ctrl), diff, extra, 0, []) == Some(target)
  {
    RebuildWhole(image, ts, diff, extra, target);
  }

  /** A patch file and what it means: two bytes are added to old ones, one is copied, the old
      position goes back by one, and a sum wraps. */
  lemma KnownPatch()
    ensures Rebuild([5, 6], 4, ReadControls(KNOWN_CONTROL), [3, 4, 251], [9], 0, [])
            == Some([8, 10, 9, 1])
  {
    KnownControls();
    var last, first := Control(1, 0, 0), Control(2, 1, -1);
    KnownFirst([first, last], [3, 4, 251], [9], [8, 10, 9, 1]);
    ReconstructWhole([5, 6], [8, 10, 9, 1], KNOWN_CONTROL, [first, last], [3, 4, 251], [9]);
  }

  lemma KnownLast()
    ensures Describes([5, 6], [Control(1, 0, 0)], [251], [], 1, [1])
  {
    var ts := [Control(1, 0, 0)];
    assert Part([5, 6], ts[0], [251], [], 1, [1]);
    assert [1][1..] == [];
  }

  lemma KnownFirst(ts: seq<Control>, diff: seq<Byte>, extra: seq<Byte>, target: seq<Byte>)
    requires ts == [Control(2, 1, -1), Control(1, 0, 0)]
    requires diff == [3, 4, 251] && extra == [9] && target == [8, 10, 9, 1]
    ensures Describes([5, 6], ts, diff, extra, 0, target)
  {
    KnownLast();
    assert ts[1..] == [Control(1, 0, 0)] && diff[2..] == [251] && extra[1..] == [];
    assert target[3..] == [1];
    DescribesFrom([5, 6], ts, diff, extra, 0, target);
  }

  lemma DescribesFrom(image: seq<Byte>, ts: seq<Control>, diff: seq<Byte>, extra: seq<Byte>,
                      oldpos: int, target: seq<Byte>)
    requires ts != [] && Part(image, ts[0], diff, extra, oldpos, target)
    requires Describes(image, ts[1..], diff[ts[0].add..], extra[ts[0].copy..],
                       oldpos + ts[0].add + ts[0].seek, target[ts[0].add + ts[0].copy..])
    ensures Describes(image, ts, diff, extra, oldpos, target)
  {
  }

  const KNOWN_CONTROL: seq<Byte> :=
    [2, 0, 0, 0, 0, 0, 0, 0] + [1, 0, 0, 0, 0, 0, 0, 0] + [1, 0, 0, 0, 0, 0, 0, 128]
    + ([1, 0, 0, 0, 0, 0, 0, 0] + [0, 0, 0, 0, 0, 0, 0, 0] + [0, 0, 0, 0, 0, 0, 0, 0])

  lemma KnownControls()
    ensures ReadControls(KNOWN_CONTROL) == [Control(2, 1, -1), Control(1, 0, 0)]
  {
    var a: seq<Byte>, b: seq<Byte> := [2, 0, 0, 0, 0, 0, 0, 0], [1, 0, 0, 0, 0, 0, 0, 0];
    var c: seq<Byte>, z: seq<Byte> := [1, 0, 0, 0, 0, 0, 0, 128], [0, 0, 0, 0, 0, 0, 0, 0];
    DecodeValue(a);
    DecodeValue(b);
    DecodeValue(c);
    DecodeValue(z);
    TwoControls(a, b, c, b, z, z);
  }

  /** Two triples are read from their six numbers. */
  lemma TwoControls(a: seq<Byte>, b: seq<Byte>, c: seq<Byte>, d: seq<Byte>, e: seq<Byte>,
                    f: seq<Byte>)
    requires |a| == |b| == |c| == |d| == |e| == |f| == 8
    ensures ReadControls(a + b + c + (d + e + f))
            == [Control(DecodeOff(a), DecodeOff(b), DecodeOff(c)),
                Control(DecodeOff(d), DecodeOff(e), DecodeOff(f))]
  {
    var one, two := a + b + c, d + e + f;
    ReadFirst(one, two);
    ReadFirst(two, []);
    assert two + [] == two;
    ThreeFields(a, b, c, two);
    ThreeFields(d, e, f, []);
  }

  // ---- the C loop -------------------------------------------------------------------------

  /** A decompressed bzip2 stream: finite data and a cursor. */
  class BzStream {
    const data: seq<Byte>
    var pos: nat

    ghost predicate Valid()
      reads this
    {
      pos <= |data|
    }

    ghost function Rest(): seq<Byte>
      reads this
      requires Valid()
    {
      data[pos..]
    }

    constructor (bytes: seq<Byte>)
      ensures Valid() && Rest() == bytes
    {
      data := bytes;
      pos := 0;
    }

    /** `BZ2_bzRead` of n bytes to buf[at..], with the caller's check folded in: a negative
        count and a short read both report failure. */
    method Read(buf: array<Byte>, at: nat, n: int) returns (good: bool)
      requires Valid()
      requires at <= buf.Length && at + n <= buf.Length
      modifies this, buf
      ensures Valid()
      ensures good == Readable(old(Rest()), n)
      ensures good ==> Rest() == old(Rest())[n..]
      ensures good ==> buf[..] == old(buf[..at]) + old(Rest())[..n] + old(buf[at + n..])
    {
      if n < 0 {
        return false;
      }
      var lenread := Min(n, |data| - pos);
      for i := 0 to lenread
        invariant pos == old(pos)
        invariant forall k :: 0 <= k < at || at + i <= k < buf.Length ==> buf[k] == old(buf[k])
        invariant forall k :: at <= k < at + i ==> buf[k] == data[pos + k - at]
      {
        buf[at + i] := data[pos + i];
      }
      pos := pos + lenread;
      good := lenread == n;
    }
  }

  /** Reads the three numbers of one control triple. */
  method ReadTriple(cpf: BzStream) returns (good: bool, t: Control)
    requires cpf.Valid()
    modifies cpf
    ensures cpf.Valid()
    ensures good == (|old(cpf.Rest())| >= CONTROL_BYTES)
    ensures good ==> t == ReadControl(old(cpf.Rest()))
    ensures good ==> cpf.Rest() == old(cpf.Rest())[CONTROL_BYTES..]
  {
    ghost var before := cpf.Rest();
    t := Control(0, 0, 0);
    var buf := new Byte[8](_ => 0);
    var ctrl: seq<int> := [];
    for i := 0 to 3
      invariant cpf.Valid() && fresh(buf) && |ctrl| == i
      invariant |before| >= 8 * i && cpf.Rest() == before[8 * i..]
      invariant forall k :: 0 <= k < i ==> ctrl[k] == DecodeOff(before[8 * k..8 * k + 8])
    {
      var y: int;
      good, y := ReadOff(cpf, buf);
      if !good {
        return;
      }
      assert before[8 * i..][..8] == before[8 * i..8 * i + 8];
      ctrl := ctrl + [y];
    }
    good := true;
    t := Control(ctrl[0], ctrl[1], ctrl[2]);
    assert before[..8] == before[0..8];
  }

  /** Reads one number. */
  method ReadOff(cpf: BzStream, buf: array<Byte>) returns (good: bool, y: int)
    requires cpf.Valid() && buf.Length == 8
    modifies cpf, buf
    ensures cpf.Valid() && good == (|old(cpf.Rest())| >= 8)
    ensures good ==> y == DecodeOff(old(cpf.Rest())[..8]) && cpf.Rest() == old(cpf.Rest())[8..]
  {
    y := 0;
    ghost var before := cpf.Rest();
    good := cpf.Read(buf, 0, 8);
    if good {
      assert buf[..] == before[..8];
      y := Offtin(buf[..]);
    }
  }

  /** Adds old data to the n diff bytes at buf[newpos..]. */
  method AddOldInto(image: seq<Byte>, buf: array<Byte>, newpos: nat, n: nat, oldpos: int)
    requires newpos + n <= buf.Length
    modifies buf
    ensures buf[..] == old(buf[..newpos]) + AddOld(image, oldpos, old(buf[newpos..newpos + n]))
                       + old(buf[newpos + n..])
    ensures Added(old(buf[..]), buf[..], image, newpos, n, oldpos)
  {
    ghost var d := buf[newpos..newpos + n];
    for i := 0 to n
      invariant forall k :: 0 <= k < newpos || newpos + i <= k < buf.Length ==> buf[k] == old(buf[k])
      invariant forall k :: newpos <= k < newpos + i ==> buf[k] == AddOld(image, oldpos, d)[k - newpos]
    {
      if oldpos + i >= 0 && oldpos + i < |image| {
        buf[newpos + i] := AddByte(buf[newpos + i], image[oldpos + i]);
      }
    }
    AddOldIsAdded(old(buf[..]), buf[..], image, newpos, n, oldpos);
  }

  /** In `after` the old image is added to n bytes of `before`, byte by byte, and nothing else has
      changed. */
  ghost predicate Added(before: seq<Byte>, after: seq<Byte>, image: seq<Byte>, newpos: nat, n: nat,
                  oldpos: int)
  {
    && |after| == |before| && newpos + n <= |before|
    && (forall k :: 0 <= k < newpos || newpos + n <= k < |before| ==> after[k] == before[k])
    && (forall k :: newpos <= k < newpos + n ==>
          Adds(image, oldpos + k - newpos, before[k], after[k]))
  }

  lemma AddOldIsAdded(before: seq<Byte>, after: seq<Byte>, image: seq<Byte>, newpos: nat, n: nat,
                      oldpos: int)
    requires newpos + n <= |before|
    requires after == before[..newpos] + AddOld(image, oldpos, before[newpos..newpos + n])
                      + before[newpos + n..]
    ensures Added(before, after, image, newpos, n, oldpos)
  {
    var d := before[newpos..newpos + n];
    AddOldAdds(image, oldpos, d, AddOld(image, oldpos, d));
    forall k | newpos <= k < newpos + n
      ensures Adds(image, oldpos + k - newpos, before[k], after[k])
    {
      assert Adds(image, oldpos + (k - newpos), d[k - newpos], AddOld(image, oldpos, d)[k - newpos]);
    }
  }

  /** The body of the patch loop after the control triple is read. */
  method ApplyTriple(image: seq<Byte>, buf: array<Byte>, newpos: nat, oldpos: int, t: Control,
                     dpf: BzStream, epf: BzStream) returns (good: bool)
    requires newpos <= buf.Length && dpf.Valid() && epf.Valid() && dpf != epf
    modifies buf, dpf, epf
    ensures dpf.Valid() && epf.Valid()
    ensures good == Fits(buf.Length, old(dpf.Rest()), old(epf.Rest()), newpos, t)
    ensures good ==> dpf.Rest() == old(dpf.Rest())[t.add..]
    ensures good ==> epf.Rest() == old(epf.Rest())[t.copy..]
    ensures good ==> buf[..newpos + t.add + t.copy]
                     == Grow(image, old(dpf.Rest()), old(epf.Rest()), oldpos, old(buf[..newpos]), t)
  {
    if newpos + t.add > buf.Length {
      return false;
    }
    good := dpf.Read(buf, newpos, t.add);
    if !good {
      return;
    }
    assert buf[newpos..newpos + t.add] == old(dpf.Rest())[..t.add];
    AddOldInto(image, buf, newpos, t.add, oldpos);
    ghost var added := buf[..newpos + t.add];
    assert added == old(buf[..newpos]) + AddOld(image, oldpos, old(dpf.Rest())[..t.add]);
    if newpos + t.add + t.copy > buf.Length {
      return false;
    }
    good := epf.Read(buf, newpos + t.add, t.copy);
    assert good ==> buf[..newpos + t.add + t.copy] == added + old(epf.Rest())[..t.copy];
  }

  /** What is left to do. */
  ghost function WholeLeft(image: seq<Byte>, buf: array<Byte>, newpos: nat, oldpos: int,
                           cpf: BzStream, dpf: BzStream, epf: BzStream): Option<seq<Byte>>
    reads buf, cpf, dpf, epf
    requires newpos <= buf.Length && cpf.Valid() && dpf.Valid() && epf.Valid()
  {
    Rebuild(image, buf.Length, ReadControls(cpf.Rest()), dpf.Rest(), epf.Rest(), oldpos,
            buf[..newpos])
  }

  /** One turn of the loop: it keeps the meaning of what is left to do, or finds it corrupt. */
  method Turn(image: seq<Byte>, buf: array<Byte>, newpos: nat, oldpos: int, cpf: BzStream,
              dpf: BzStream, epf: BzStream) returns (good: bool, t: Control)
    requires newpos < buf.Length
    requires cpf.Valid() && dpf.Valid() && epf.Valid() && cpf != dpf && cpf != epf && dpf != epf
    modifies buf, cpf, dpf, epf
    ensures cpf.Valid() && dpf.Valid() && epf.Valid()
    ensures good ==> newpos <= newpos + t.add + t.copy <= buf.Length
    ensures good ==> |cpf.Rest()| < |old(cpf.Rest())|
    ensures old(WholeLeft(image, buf, newpos, oldpos, cpf, dpf, epf))
            == if good then WholeLeft(image, buf, newpos + t.add + t.copy,
                                      oldpos + t.add + t.seek, cpf, dpf, epf)
               else None
  {
    good, t := ReadTriple(cpf);
    if good {
      good := ApplyTriple(image, buf, newpos, oldpos, t, dpf, epf);
    }
  }

  /** The patch loop of `main`. */
  method PatchWhole(image: seq<Byte>, newsize: nat, ctrl: seq<Byte>, diff: seq<Byte>,
                    extra: seq<Byte>) returns (ok: bool, buf: array<Byte>)
    ensures fresh(buf) && buf.Length == newsize
    ensures Rebuild(image, newsize, ReadControls(ctrl), diff, extra, 0, [])
            == if ok then Some(buf[..]) else None
    ensures Meaning(image, newsize, ReadControls(ctrl), diff, extra,
                    if ok then Some(buf[..]) else None)
  {
    buf := new Byte[newsize](_ => 0);
    var cpf := new BzStream(ctrl);
    var dpf := new BzStream(diff);
    var epf := new BzStream(extra);
    assert buf[..0] == [];
    ok := PatchLoop(image, buf, cpf, dpf, epf);
    RebuildMeans(image, newsize, ReadControls(ctrl), diff, extra);
  }

  method PatchLoop(image: seq<Byte>, buf: array<Byte>, cpf: BzStream, dpf: BzStream,
                   epf: BzStream) returns (ok: bool)
    requires cpf.Valid() && dpf.Valid() && epf.Valid() && cpf != dpf && cpf != epf && dpf != epf
    modifies buf, cpf, dpf, epf
    ensures old(WholeLeft(image, buf, 0, 0, cpf, dpf, epf)) == if ok then Some(buf[..]) else None
  {
    var oldpos, newpos := 0, 0;
    while newpos < buf.Length
      invariant 0 <= newpos <= buf.Length
      invariant cpf.Valid() && dpf.Valid() && epf.Valid()
      invariant old(WholeLeft(image, buf, 0, 0, cpf, dpf, epf))
                == WholeLeft(image, buf, newpos, oldpos, cpf, dpf, epf)
      decreases |cpf.Rest()|
    {
      var good, t := Turn(image, buf, newpos, oldpos, cpf, dpf, epf);
      if !good {
        return false;
      }
      newpos := newpos + t.add + t.copy;
      oldpos := oldpos + t.add + t.seek;
    }
    ok := true;
    assert buf[..newpos] == buf[..];
  }
}
