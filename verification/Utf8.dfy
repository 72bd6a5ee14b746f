/** The UTF-8 encoder of up to six bytes and the counting validator. */
module Utf8 {

  type Bytes = seq<bv8>

  // ----- The encoder

  function Cont(c: bv64): bv8 {
    0x80 | (c & 0x3F) as bv8
  }

  /** The bytes that `unicode_to_utf8` copies out: none for code point 0, whose only
      byte is the terminator. */
  function Encode(c: bv64): Bytes {
    if c == 0 then []
    else if c < 0x80 then [c as bv8]
    else if c < 0x800 then [0xC0 | ((c >> 6) & 0x1F) as bv8, Cont(c)]
    else if c < 0x1_0000 then [0xE0 | ((c >> 12) & 0x0F) as bv8, Cont(c >> 6), Cont(c)]
    else if c < 0x20_0000 then [0xF0 | ((c >> 18) & 0x07) as bv8, Cont(c >> 12), Cont(c >> 6), Cont(c)]
    else if c < 0x400_0000 then
      [0xF8 | ((c >> 24) & 0x03) as bv8, Cont(c >> 18), Cont(c >> 12), Cont(c >> 6), Cont(c)]
    else
      [0xFC | ((c >> 30) & 0x01) as bv8, Cont(c >> 24), Cont(c >> 18), Cont(c >> 12), Cont(c >> 6), Cont(c)]
  }

  /** The code points with an encoding: 1 to 2^31 - 1. */
  predicate InRange(c: bv64) {
    0 < c < 0x8000_0000
  }

  // ----- Blocks, as in section 2 of RFC 2279

  /** The number of leading one bits. */
  function LeadingOnes(b: bv8): nat {
    if b < 0x80 then 0
    else if b < 0xC0 then 1
    else if b < 0xE0 then 2
    else if b < 0xF0 then 3
    else if b < 0xF8 then 4
    else if b < 0xFC then 5
    else if b < 0xFE then 6
    else if b < 0xFF then 7
    else 8
  }

  predicate IsCont(b: bv8) {
    b & 0xC0 == 0x80
  }

  /** One ASCII byte, or a lead byte with k leading ones, k from 2 to 6, followed by
      k - 1 continuation bytes. */
  predicate IsBlock(b: Bytes) {
    && |b| > 0
    && if |b| == 1 then LeadingOnes(b[0]) == 0
       else |b| <= 6 && LeadingOnes(b[0]) == |b| && forall i :: 1 <= i < |b| ==> IsCont(b[i])
  }

  function Flatten(bs: seq<Bytes>): Bytes {
    if bs == [] then [] else bs[0] + Flatten(bs[1..])
  }

  /** A concatenation of blocks. */
  ghost predicate WellFormed(b: Bytes) {
    exists bs: seq<Bytes> :: (forall i :: 0 <= i < |bs| ==> IsBlock(bs[i])) && Flatten(bs) == b
  }

  function Payload(b: bv8): bv64 {
    (b & 0x3F) as bv64
  }

  function Join2(a: bv8, b: bv8): bv64 {
    (((a & 0x1F) as bv64) << 6) | Payload(b)
  }

  function Join3(a: bv8, b: bv8, c: bv8): bv64 {
    (((a & 0x0F) as bv64) << 12) | (Payload(b) << 6) | Payload(c)
  }

  function Join4(a: bv8, b: bv8, c: bv8, d: bv8): bv64 {
    (((a & 0x07) as bv64) << 18) | (Payload(b) << 12) | (Payload(c) << 6) | Payload(d)
  }

  function Join5(a: bv8, b: bv8, c: bv8, d: bv8, e: bv8): bv64 {
    (((a & 0x03) as bv64) << 24) | (Payload(b) << 18) | (Payload(c) << 12) | (Payload(d) << 6) | Payload(e)
  }

  function Join6(a: bv8, b: bv8, c: bv8, d: bv8, e: bv8, f: bv8): bv64 {
    (((a & 0x01) as bv64) << 30) | (Payload(b) << 24) | (Payload(c) << 18) | (Payload(d) << 12) | (Payload(e) << 6)
    | Payload(f)
  }

  /** The code point of a block. */
  function DecodeBlock(b: Bytes): bv64
    requires IsBlock(b)
  {
    if |b| == 1 then b[0] as bv64
    else if |b| == 2 then Join2(b[0], b[1])
    else if |b| == 3 then Join3(b[0], b[1], b[2])
    else if |b| == 4 then Join4(b[0], b[1], b[2], b[3])
    else if |b| == 5 then Join5(b[0], b[1], b[2], b[3], b[4])
    else Join6(b[0], b[1], b[2], b[3], b[4], b[5])
  }

  lemma EncodeIsBlock(c: bv64)
    requires InRange(c)
    ensures IsBlock(Encode(c))
  {
  }

  /** Splitting a code point into bit groups loses nothing. */
  lemma SplitJoin(c: bv64)
    ensures c < 0x800 ==> Join2(0xC0 | ((c >> 6) & 0x1F) as bv8, Cont(c)) == c
    ensures c < 0x1_0000 ==> Join3(0xE0 | ((c >> 12) & 0x0F) as bv8, Cont(c >> 6), Cont(c)) == c
    ensures c < 0x20_0000 ==> Join4(0xF0 | ((c >> 18) & 0x07) as bv8, Cont(c >> 12), Cont(c >> 6), Cont(c)) == c
  {
  }

  lemma SplitJoinLong(c: bv64)
    ensures c < 0x400_0000 ==>
              Join5(0xF8 | ((c >> 24) & 0x03) as bv8, Cont(c >> 18), Cont(c >> 12), Cont(c >> 6), Cont(c)) == c
    ensures c < 0x8000_0000 ==>
              Join6(0xFC | ((c >> 30) & 0x01) as bv8, Cont(c >> 24), Cont(c >> 18), Cont(c >> 12), Cont(c >> 6),
                    Cont(c)) == c
  {
  }

  /** Decoding the emitted bytes gives the code point back. */
  lemma DecodeEncode(c: bv64)
    requires InRange(c)
    ensures IsBlock(Encode(c)) && DecodeBlock(Encode(c)) == c
  {
    EncodeIsBlock(c);
    SplitJoin(c);
    SplitJoinLong(c);
    hide IsBlock, Cont, Join2, Join3, Join4, Join5, Join6;
  }

  lemma JoinSplit2(a: bv8, b: bv8)
    requires 0xC0 <= a < 0xE0 && IsCont(b)
    ensures var c := Join2(a, b); a == 0xC0 | ((c >> 6) & 0x1F) as bv8 && b == Cont(c) && c < 0x800
  {
  }

  lemma JoinSplit3(a: bv8, b: bv8, d: bv8)
    requires 0xE0 <= a < 0xF0 && IsCont(b) && IsCont(d)
    ensures var c := Join3(a, b, d);
            a == 0xE0 | ((c >> 12) & 0x0F) as bv8 && b == Cont(c >> 6) && d == Cont(c) && c < 0x1_0000
  {
  }

  lemma JoinSplit4(a: bv8, b: bv8, d: bv8, e: bv8)
    requires 0xF0 <= a < 0xF8 && IsCont(b) && IsCont(d) && IsCont(e)
    ensures var c := Join4(a, b, d, e);
            && a == 0xF0 | ((c >> 18) & 0x07) as bv8 && b == Cont(c >> 12) && d == Cont(c >> 6) && e == Cont(c)
            && c < 0x20_0000
  {
  }

  lemma JoinSplit5(a: bv8, b: bv8, d: bv8, e: bv8, f: bv8)
    requires 0xF8 <= a < 0xFC && IsCont(b) && IsCont(d) && IsCont(e) && IsCont(f)
    ensures var c := Join5(a, b, d, e, f);
            && a == 0xF8 | ((c >> 24) & 0x03) as bv8 && b == Cont(c >> 18) && d == Cont(c >> 12) && e == Cont(c >> 6)
            && f == Cont(c) && c < 0x400_0000
  {
  }

  lemma JoinSplit6(a: bv8, b: bv8, d: bv8, e: bv8, f: bv8, g: bv8)
    requires 0xFC <= a < 0xFE && IsCont(b) && IsCont(d) && IsCont(e) && IsCont(f) && IsCont(g)
    ensures var c := Join6(a, b, d, e, f, g);
            && a == 0xFC | ((c >> 30) & 0x01) as bv8 && b == Cont(c >> 24) && d == Cont(c >> 18) && e == Cont(c >> 12)
            && f == Cont(c >> 6) && g == Cont(c)
  {
  }

  lemma EncodeLength(c: bv64)
    ensures c < 0x80 ==> |Encode(c)| <= 1
    ensures c < 0x800 ==> |Encode(c)| <= 2
    ensures c < 0x1_0000 ==> |Encode(c)| <= 3
    ensures c < 0x20_0000 ==> |Encode(c)| <= 4
    ensures c < 0x400_0000 ==> |Encode(c)| <= 5
    ensures |Encode(c)| <= 6
  {
    hide Cont;
  }

  /** No block for a code point is shorter than its encoding. */
  lemma EncodeIsShortest(b: Bytes)
    requires IsBlock(b)
    ensures |Encode(DecodeBlock(b))| <= |b|
  {
    hide Encode;
    EncodeLength(DecodeBlock(b));
  }

  /** The first code point that needs `n` bytes. */
  function FirstOf(n: nat): bv64 {
    if n <= 1 then 1
    else if n == 2 then 0x80
    else if n == 3 then 0x800
    else if n == 4 then 0x1_0000
    else if n == 5 then 0x20_0000
    else 0x400_0000
  }

  lemma LengthIsLeast(c: bv64, n: nat)
    requires 1 <= n <= 6
    ensures |Encode(c)| >= n <==> Needs(c, n)
  {
    hide Cont;
  }

  lemma SameIffLength(b: Bytes)
    requires IsBlock(b)
    ensures Encode(DecodeBlock(b)) == b <==> |Encode(DecodeBlock(b))| == |b|
  {
    match |b| {
      case 2 => JoinSplit2(b[0], b[1]);
      case 3 => JoinSplit3(b[0], b[1], b[2]);
      case 4 => JoinSplit4(b[0], b[1], b[2], b[3]);
      case 5 => JoinSplit5(b[0], b[1], b[2], b[3], b[4]);
      case 6 => JoinSplit6(b[0], b[1], b[2], b[3], b[4], b[5]);
      case _ =>
    }
    hide Cont, Join2, Join3, Join4, Join5, Join6;
  }

  /** The code point needs `n` bytes, not fewer. */
  predicate Needs(c: bv64, n: nat) {
    c >= FirstOf(n)
  }

  /** The encoder gives a block back exactly when the code point needs that many bytes. */
  lemma EncodeDecode(b: Bytes)
    requires IsBlock(b)
    ensures Encode(DecodeBlock(b)) == b <==> Needs(DecodeBlock(b), |b|)
  {
    hide Encode, DecodeBlock, Needs;
    BlockLength(b);
    EncodeIsShortest(b);
    LengthIsLeast(DecodeBlock(b), |b|);
    SameIffLength(b);
  }

  lemma BlockLength(b: Bytes)
    requires IsBlock(b)
    ensures 1 <= |b| <= 6
  {
  }

  /** `unicode_to_utf8`: the bytes at `dst[at..]`, then a NUL; returns the length. */
  method UnicodeToUtf8(c: bv64, dst: array<bv8>, at: nat) returns (n: nat)
    requires at + |Encode(c)| < dst.Length
    modifies dst
    ensures n == |Encode(c)| && dst[at..at + n] == Encode(c) && dst[at + n] == 0
    ensures dst[..at] == old(dst[..at])
    ensures dst[at + n + 1..] == old(dst[at + n + 1..])
  {
    var tmp := EncodeBytes(c);
    n := |tmp|;
    forall i | 0 <= i <= n {
      dst[at + i] := if i < n then tmp[i] else 0;
    }
  }

  /** The nested branches of `unicode_to_utf8`, each appending one byte; `strlen` of
      the result stops at the only NUL byte there can be, the one for code point 0. */
  method EncodeBytes(c: bv64) returns (tmp: Bytes)
    ensures tmp == Encode(c)
  {
    hide Cont;
    tmp := [];
    if c < 0x80 {
      if c != 0 {
        tmp := [c as bv8];
      }
      return;
    }
    if c < 0x800 {
      tmp := tmp + [0xC0 | ((c >> 6) & 0x1F) as bv8];
    } else {
      if c < 0x1_0000 {
        tmp := tmp + [0xE0 | ((c >> 12) & 0x0F) as bv8];
      } else {
        if c < 0x20_0000 {
          tmp := tmp + [0xF0 | ((c >> 18) & 0x07) as bv8];
        } else {
          if c < 0x400_0000 {
            tmp := tmp + [0xF8 | ((c >> 24) & 0x03) as bv8];
          } else {
            tmp := tmp + [0xFC | ((c >> 30) & 0x01) as bv8];
            tmp := tmp + [Cont(c >> 24)];
          }
          tmp := tmp + [Cont(c >> 18)];
        }
        tmp := tmp + [Cont(c >> 12)];
      }
      tmp := tmp + [Cont(c >> 6)];
    }
    tmp := tmp + [Cont(c)];
  }

  // ----- The validator

  /** The automaton of the counting loop: `due` continuation bytes are still due. */
  predicate Accepts(b: Bytes, due: nat) {
    if b == [] then due == 0
    else if due > 0 then IsCont(b[0]) && Accepts(b[1..], due - 1)
    else if b[0] < 0x80 then Accepts(b[1..], 0)
    else 2 <= LeadingOnes(b[0]) <= 6 && Accepts(b[1..], LeadingOnes(b[0]) - 1)
  }

  /** The low eight bits of `b << n`. */
  function Shifted(b: bv8, n: nat): bv8 {
    if n == 0 then b
    else if n == 1 then b << 1
    else if n == 2 then b << 2
    else if n == 3 then b << 3
    else if n == 4 then b << 4
    else if n == 5 then b << 5
    else if n == 6 then b << 6
    else b << 7
  }

  lemma ShiftedBit(b: bv8, n: nat)
    requires n <= 6 && n <= LeadingOnes(b)
    ensures Shifted(b, n) & 0x80 != 0 <==> n < LeadingOnes(b)
  {
  }

  /** The inner loop: counts leading ones, giving up (7) after more than six. */
  method CountOnes(b: bv8) returns (n: nat)
    ensures n == if LeadingOnes(b) > 6 then 7 else LeadingOnes(b)
  {
    n := 0;
    ShiftedBit(b, 0);
    while Shifted(b, n) & 0x80 != 0
      invariant n <= 6 && n <= LeadingOnes(b)
      decreases 7 - n
    {
      ShiftedBit(b, n);
      n := n + 1;
      if n > 6 {
        return;
      }
    }
    ShiftedBit(b, n);
  }

  /** `RK_encode_is_utf8`: accepts a buffer that is empty or starts with NUL, and any
      other buffer exactly when it is a concatenation of blocks. */
  method IsUtf8(buf: Bytes) returns (ok: bool)
    ensures ok <==> buf == [] || buf[0] == 0 || WellFormed(buf)
  {
    AcceptsIffWellFormed(buf);
    if |buf| == 0 || buf[0] == 0 {
      return true;
    }
    ok := RunCounter(buf);
  }

  method RunCounter(buf: Bytes) returns (ok: bool)
    ensures ok == Accepts(buf, 0)
  {
    var due: nat := 0;
    assert buf[0..] == buf;
    for i := 0 to |buf|
      invariant Accepts(buf, 0) == Accepts(buf[i..], due)
    {
      assert buf[i..][1..] == buf[i + 1..];
      ContOrAscii(buf[i]);
      if due == 0 && buf[i] & 0x80 == 0 {
        continue;
      } else if due > 0 && buf[i] & 0xC0 == 0x80 {
        due := due - 1;
      } else if due > 0 {
        return false;
      } else {
        var n := CountOnes(buf[i]);
        if n > 6 || n < 2 {
          return false;
        }
        due := n - 1;
      }
    }
    ok := due == 0;
  }

  lemma ContOrAscii(b: bv8)
    ensures b & 0x80 == 0 <==> b < 0x80
    ensures IsCont(b) <==> 0x80 <= b < 0xC0
  {
  }

  lemma {:induction false} AcceptsDue(b: Bytes, due: nat)
    ensures Accepts(b, due) <==> due <= |b| && (forall i :: 0 <= i < due ==> IsCont(b[i])) && Accepts(b[due..], 0)
  {
    hide IsCont;
    if due == 0 {
      assert b[0..] == b;
    } else if b != [] {
      AcceptsDue(b[1..], due - 1);
      if due <= |b| {
        assert b[1..][due - 1..] == b[due..];
        assert forall i :: 0 <= i < due - 1 ==> b[1..][i] == b[i + 1];
        assert (forall i :: 0 <= i < due ==> IsCont(b[i])) <==>
               IsCont(b[0]) && forall i :: 0 <= i < due - 1 ==> IsCont(b[1..][i]) by {
          if IsCont(b[0]) && forall i :: 0 <= i < due - 1 ==> IsCont(b[1..][i]) {
            forall i | 0 <= i < due ensures IsCont(b[i]) {
              if i > 0 {
                assert b[1..][i - 1] == b[i];
              }
            }
          }
        }
      }
    }
  }

  /** A block in front is accepted, and does not matter for the rest. */
  lemma AcceptsBlock(block: Bytes, rest: Bytes)
    requires IsBlock(block)
    ensures Accepts(block + rest, 0) <==> Accepts(rest, 0)
  {
    var b := block + rest;
    if |block| == 1 {
      assert b[1..] == rest;
    } else {
      AcceptsDue(b[1..], |block| - 1);
      assert b[1..][|block| - 1..] == rest;
      assert forall i :: 0 <= i < |block| - 1 ==> b[1..][i] == block[i + 1];
    }
  }

  lemma {:induction false} FlattenAccepted(bs: seq<Bytes>)
    requires forall i :: 0 <= i < |bs| ==> IsBlock(bs[i])
    ensures Accepts(Flatten(bs), 0)
  {
    if bs != [] {
      FlattenAccepted(bs[1..]);
      AcceptsBlock(bs[0], Flatten(bs[1..]));
    }
  }

  /** An accepted buffer starts with a block, and the rest is accepted. */
  lemma FirstBlock(b: Bytes) returns (n: nat)
    requires b != [] && Accepts(b, 0)
    ensures 0 < n <= |b| && IsBlock(b[..n]) && Accepts(b[n..], 0)
  {
    if b[0] < 0x80 {
      n := 1;
    } else {
      n := LeadingOnes(b[0]);
      AcceptsDue(b[1..], n - 1);
      assert b[1..][n - 1..] == b[n..];
      assert forall i :: 1 <= i < n ==> b[..n][i] == b[1..][i - 1];
    }
  }

  lemma {:induction false} AcceptedFlattens(b: Bytes) returns (bs: seq<Bytes>)
    requires Accepts(b, 0)
    ensures (forall i :: 0 <= i < |bs| ==> IsBlock(bs[i])) && Flatten(bs) == b
    decreases |b|
  {
    hide IsBlock, Accepts;
    if b == [] {
      bs := [];
    } else {
      var n := FirstBlock(b);
      var rest := AcceptedFlattens(b[n..]);
      bs := [b[..n]] + rest;
      assert bs[1..] == rest;
      assert b == b[..n] + b[n..];
    }
  }

  /** The automaton accepts exactly the concatenations of blocks. */
  lemma AcceptsIffWellFormed(b: Bytes)
    ensures Accepts(b, 0) <==> WellFormed(b)
  {
    hide Accepts, IsBlock;
    if Accepts(b, 0) {
      var bs := AcceptedFlattens(b);
    }
    if WellFormed(b) {
      var bs: seq<Bytes> :| (forall i :: 0 <= i < |bs| ==> IsBlock(bs[i])) && Flatten(bs) == b;
      FlattenAccepted(bs);
    }
  }
}
