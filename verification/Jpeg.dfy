/** The JPEG marker walk that finds the picture size. */
module Jpeg {
  import opened Options
  import opened ByteTypes

  datatype Size = Size(width: nat, height: nat)

  /** A big-endian 16-bit field. */
  function Be16(buf: seq<Byte>, p: nat): (v: nat)
    requires p + 1 < |buf|
    ensures v < 65536
  {
    var high: int, low: int := buf[p], buf[p + 1];
    high * 256 + low
  }

  predicate IsFrameMarker(m: Byte) {
    m == 0xC0 || m == 0xC2
  }

  /** The walk from offset `cur`: skip whole marker segments up to a frame header. */
  function Walk(buf: seq<Byte>, cur: nat): Option<Size>
    decreases |buf| - cur
  {
    if cur + 8 >= |buf| || buf[cur] != 0xFF then None
    else if IsFrameMarker(buf[cur + 1]) then Some(Size(Be16(buf, cur + 7), Be16(buf, cur + 5)))
    else Walk(buf, cur + 2 + Be16(buf, cur + 2))
  }

  /** What the walk finds in a buffer that has to start with the SOI marker. */
  function Resolution(buf: seq<Byte>): Option<Size> {
    if |buf| >= 2 && buf[0] == 0xFF && buf[1] == 0xD8 then Walk(buf, 2) else None
  }

  /** `get_jpeg_resolution`; `None` is -1. The bound keeps the 32-bit offsets of the
      source from wrapping: a step adds at most 2 + 65535 to an offset inside the
      buffer, and the loop test adds 8 to the result. */
  method GetJpegResolution(buf: seq<Byte>) returns (size: Option<Size>)
    requires 2 <= |buf| <= 0x1_0000_0000 - 65545
    ensures size == Resolution(buf)
  {
    if buf[0] != 0xFF || buf[1] != 0xD8 {
      return None;
    }
    var cur := 2;
    while cur + 4 + 4 < |buf|
      invariant Walk(buf, 2) == Walk(buf, cur)
      invariant 2 <= cur && cur + 8 < 0x1_0000_0000
      decreases |buf| - cur
    {
      if buf[cur] != 0xFF {
        break;
      }
      if buf[cur + 1] == 0xC0 || buf[cur + 1] == 0xC2 {
        cur := cur + 5;
        var height := Be16(buf, cur);
        cur := cur + 2;
        var width := Be16(buf, cur);
        return Some(Size(width, height));
      }
      cur := cur + 2;
      cur := cur + Be16(buf, cur);
    }
    return None;
  }

  // ----- Streams as section B.1.1.4 and section B.2.2 of ITU-T T.81 describe them

  type Word = v: int | 0 <= v < 65536

  function Word16(v: Word): (s: seq<Byte>)
    ensures |s| == 2
  {
    [v / 256, v % 256]
  }

  /** A marker segment: the length field counts itself and the parameters. */
  datatype Segment = Segment(marker: Byte, parameters: seq<Byte>)

  /** Any marker segment but a baseline or progressive frame header. */
  predicate IsSkipped(s: Segment) {
    s.marker != 0xC0 && s.marker != 0xC2 && |s.parameters| + 2 < 65536
  }

  function SegmentBytes(s: Segment): (r: seq<Byte>)
    requires IsSkipped(s)
    ensures |r| == 4 + |s.parameters|
  {
    [0xFF, s.marker] + Word16(|s.parameters| + 2) + s.parameters
  }

  function SegmentsBytes(segs: seq<Segment>): seq<Byte>
    requires forall i :: 0 <= i < |segs| ==> IsSkipped(segs[i])
  {
    if segs == [] then [] else SegmentBytes(segs[0]) + SegmentsBytes(segs[1..])
  }

  datatype Component = Component(id: Byte, sampling: Byte, table: Byte)

  /** A baseline (SOF0) or progressive (SOF2) frame header. */
  datatype Frame = Frame(progressive: bool, precision: Byte, lines: Word, samples: Word, components: seq<Component>)

  function ComponentsBytes(cs: seq<Component>): (r: seq<Byte>)
    ensures |r| == 3 * |cs|
  {
    if cs == [] then [] else [cs[0].id, cs[0].sampling, cs[0].table] + ComponentsBytes(cs[1..])
  }

  function FrameBytes(f: Frame): (r: seq<Byte>)
    requires |f.components| < 256
    ensures |r| == 10 + 3 * |f.components|
  {
    [0xFF, if f.progressive then 0xC2 else 0xC0] + Word16(8 + 3 * |f.components|) + [f.precision]
    + Word16(f.lines) + Word16(f.samples) + [|f.components|] + ComponentsBytes(f.components)
  }

  /** The walk at a frame header, whatever comes before and after. */
  lemma WalkFrame(pre: seq<Byte>, f: Frame, tail: seq<Byte>)
    requires |f.components| < 256
    ensures Walk(pre + FrameBytes(f) + tail, |pre|) == Some(Size(f.samples, f.lines))
  {
    var fb := FrameBytes(f);
    var buf := pre + fb + tail;
    assert forall i :: 0 <= i < 10 ==> buf[|pre| + i] == fb[i];
    assert fb[0] == 0xFF && IsFrameMarker(fb[1]);
    assert fb[5..7] == Word16(f.lines) && fb[7..9] == Word16(f.samples);
    assert fb[5] == f.lines / 256 && fb[6] == f.lines % 256 by {
      assert fb[5] == fb[5..7][0] && fb[6] == fb[5..7][1];
    }
    assert fb[7] == f.samples / 256 && fb[8] == f.samples % 256 by {
      assert fb[7] == fb[7..9][0] && fb[8] == fb[7..9][1];
    }
    assert buf[|pre| + 5] == fb[5] && buf[|pre| + 6] == fb[6] && buf[|pre| + 7] == fb[7] && buf[|pre| + 8] == fb[8];
    assert buf[|pre| + 0] == fb[0] && buf[|pre| + 1] == fb[1];
  }

  lemma WalkStep(buf: seq<Byte>, cur: nat)
    requires cur + 8 < |buf| && buf[cur] == 0xFF && !IsFrameMarker(buf[cur + 1])
    ensures Walk(buf, cur) == Walk(buf, cur + 2 + Be16(buf, cur + 2))
  {
  }

  /** The walk skips a marker segment when at least five bytes follow it. */
  lemma WalkSegment(pre: seq<Byte>, s: Segment, rest: seq<Byte>)
    requires IsSkipped(s) && |rest| >= 5
    ensures Walk(pre + SegmentBytes(s) + rest, |pre|) == Walk(pre + SegmentBytes(s) + rest, |pre + SegmentBytes(s)|)
  {
    hide Walk;
    var sb := SegmentBytes(s);
    var buf := pre + sb + rest;
    assert forall i :: 0 <= i < 4 ==> buf[|pre| + i] == sb[i];
    assert buf[|pre| + 0] == sb[0] && buf[|pre| + 1] == sb[1] && buf[|pre| + 2] == sb[2] && buf[|pre| + 3] == sb[3];
    assert sb[2..4] == Word16(|s.parameters| + 2);
    assert sb[2] == sb[2..4][0] && sb[3] == sb[2..4][1];
    WalkStep(buf, |pre|);
  }

  lemma {:induction false} WalkChain(pre: seq<Byte>, segs: seq<Segment>, f: Frame, tail: seq<Byte>)
    requires (forall i :: 0 <= i < |segs| ==> IsSkipped(segs[i])) && |f.components| < 256
    ensures Walk(pre + SegmentsBytes(segs) + FrameBytes(f) + tail, |pre|) == Some(Size(f.samples, f.lines))
    decreases |segs|
  {
    hide Walk, FrameBytes, SegmentBytes, IsSkipped;
    var fb := FrameBytes(f);
    if segs == [] {
      assert pre + [] + fb + tail == pre + fb + tail;
      WalkFrame(pre, f, tail);
    } else {
      var sb, more := SegmentBytes(segs[0]), SegmentsBytes(segs[1..]);
      Regroup(pre, sb, more, fb, tail);
      WalkSegment(pre, segs[0], more + fb + tail);
      WalkChain(pre + sb, segs[1..], f, tail);
    }
  }

  lemma Regroup(a: seq<Byte>, b: seq<Byte>, c: seq<Byte>, d: seq<Byte>, e: seq<Byte>)
    ensures a + (b + c) + d + e == a + b + c + d + e == a + b + (c + d + e)
  {
    assert a + (b + c) == a + b + c;
    assert a + b + c + d + e == a + b + (c + d + e);
  }

  /** For any chain of marker segments followed by a frame header, the size found is
      the one in the header. */
  lemma FindsFrameSize(segs: seq<Segment>, f: Frame, tail: seq<Byte>)
    requires (forall i :: 0 <= i < |segs| ==> IsSkipped(segs[i])) && |f.components| < 256
    ensures Resolution([0xFF, 0xD8] + SegmentsBytes(segs) + FrameBytes(f) + tail) == Some(Size(f.samples, f.lines))
  {
    hide *;
    WalkChain([0xFF, 0xD8], segs, f, tail);
    StartsWith([0xFF, 0xD8], SegmentsBytes(segs), FrameBytes(f), tail);
    WalkAfterStart([0xFF, 0xD8] + SegmentsBytes(segs) + FrameBytes(f) + tail);
  }

  lemma StartsWith(a: seq<Byte>, b: seq<Byte>, c: seq<Byte>, d: seq<Byte>)
    ensures a <= a + b + c + d
  {
    assert a + b + c + d == a + (b + c + d);
  }

  lemma WalkAfterStart(buf: seq<Byte>)
    requires [0xFF, 0xD8] <= buf
    ensures Resolution(buf) == Walk(buf, 2)
  {
    hide Walk;
    var start: seq<Byte> := [0xFF, 0xD8];
    assert buf[0] == start[0] && buf[1] == start[1];
  }

  // ----- Exactly which buffers have a size

  /** Where a marker segment at `p` ends: after the marker and as many bytes as its
      length field says, the field included. */
  function SegmentEnd(buf: seq<Byte>, p: nat): nat
    requires p + 3 < |buf|
  {
    p + 2 + 256 * (buf[p + 2] as int) + buf[p + 3]
  }

  /** A marker at `p`, with enough bytes after it for the size in a frame header. */
  predicate MarkerAt(buf: seq<Byte>, p: nat) {
    p + 8 < |buf| && buf[p] == 0xFF
  }

  /** The places of a chain of markers from the first one after SOI: all but the last
      are of other segments, the last is of a frame header. */
  ghost predicate ChainOf(buf: seq<Byte>, at: seq<nat>, first: nat) {
    && |at| > 0 && at[0] == first
    && (forall i :: 0 <= i < |at| ==> MarkerAt(buf, at[i]))
    && (forall i :: 0 <= i < |at| - 1 ==>
          buf[at[i] + 1] != 0xC0 && buf[at[i] + 1] != 0xC2 && at[i + 1] == SegmentEnd(buf, at[i]))
    && (buf[at[|at| - 1] + 1] == 0xC0 || buf[at[|at| - 1] + 1] == 0xC2)
  }

  /** Lines at offset 5 and samples at offset 7 of the frame header, most significant
      byte first. */
  function SizeAt(buf: seq<Byte>, p: nat): Size
    requires p + 8 < |buf|
  {
    Size(256 * (buf[p + 7] as int) + buf[p + 8], 256 * (buf[p + 5] as int) + buf[p + 6])
  }

  lemma {:induction false} ChainFromWalk(buf: seq<Byte>, cur: nat) returns (at: seq<nat>)
    requires Walk(buf, cur).Some?
    ensures ChainOf(buf, at, cur) && Walk(buf, cur) == Some(SizeAt(buf, at[|at| - 1]))
    decreases |buf| - cur
  {
    if IsFrameMarker(buf[cur + 1]) {
      at := [cur];
    } else {
      var rest := ChainFromWalk(buf, SegmentEnd(buf, cur));
      at := [cur] + rest;
      assert forall i :: 1 <= i < |at| ==> at[i] == rest[i - 1];
    }
  }

  lemma {:induction false} WalkFromChain(buf: seq<Byte>, at: seq<nat>, cur: nat)
    requires ChainOf(buf, at, cur)
    ensures Walk(buf, cur) == Some(SizeAt(buf, at[|at| - 1]))
    decreases |at|
  {
    assert MarkerAt(buf, at[0]);
    if |at| > 1 {
      var rest := at[1..];
      assert forall i :: 0 <= i < |rest| ==> rest[i] == at[i + 1];
      WalkFromChain(buf, rest, at[1]);
    }
  }

  /** A size is found if and only if the buffer starts with SOI and a chain of marker
      segments leads to a SOF0 or SOF2 marker; it is the one behind that marker. */
  lemma SizeIff(buf: seq<Byte>, size: Size)
    ensures Resolution(buf) == Some(size) <==>
            && |buf| >= 2 && buf[0] == 0xFF && buf[1] == 0xD8
            && exists at: seq<nat> :: ChainOf(buf, at, 2) && size == SizeAt(buf, at[|at| - 1])
  {
    hide Walk;
    if Resolution(buf) == Some(size) {
      var at := ChainFromWalk(buf, 2);
    }
    if at: seq<nat> :| ChainOf(buf, at, 2) && size == SizeAt(buf, at[|at| - 1]) {
      WalkFromChain(buf, at, 2);
    }
  }
}
