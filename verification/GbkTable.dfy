/** Which table entry each GBK code stands for, and what the two conversions make of a
    text, character by character. */
module GbkTable {
  import opened Options
  import opened Utf8
  import opened Gbk

  // ----- The order of the table

  predicate IsCode(hi: bv8, lo: bv8) {
    0x81 <= hi <= 0xFE && 0x40 <= lo <= 0xFE
  }

  /** The second code follows the first: the second byte runs from 0x40 to 0xFE, then the
      first byte moves on. */
  predicate Follows(hi: bv8, lo: bv8, hi': bv8, lo': bv8) {
    && IsCode(hi, lo) && IsCode(hi', lo')
    && if lo == 0xFE then hi' as int == hi as int + 1 && lo' == 0x40 else hi' == hi && lo' as int == lo as int + 1
  }

  /** The table without its first entry. */
  function Shifted(g: Table): Table {
    (i: nat) => g(i + 1)
  }

  /** Outside the codes no table is read. */
  lemma NoCode(g: Table, hi: bv8, lo: bv8)
    requires !IsCode(hi, lo)
    ensures ToUnicode(g, hi, lo) == 0x1FFF
  {
  }

  /** The table starts with the code 81 40 and ends with the code FE FE; B0 A1, the first
      ideograph of GB 2312, is in between. */
  lemma ThreeEntries(g: Table)
    ensures ToUnicode(g, 0x81, 0x40) == g(0)
    ensures ToUnicode(g, 0xB0, 0xA1) == g(9074)
    ensures ToUnicode(g, 0xFE, 0xFE) == g(24065)
  {
  }

  lemma ReadsIndex(g: Table, hi: bv8, lo: bv8)
    requires IsCode(hi, lo)
    ensures ToUnicode(g, hi, lo) == g(Index(hi - 0x81, lo - 0x40))
    ensures Index(hi - 0x81, lo - 0x40) == 191 * (hi as int - 0x81) + (lo as int - 0x40)
  {
  }

  /** The next code reads the next entry, in every table. */
  lemma NextEntry(g: Table, hi: bv8, lo: bv8, hi': bv8, lo': bv8)
    requires Follows(hi, lo, hi', lo')
    ensures ToUnicode(g, hi', lo') == ToUnicode(Shifted(g), hi, lo)
  {
    ReadsIndex(Shifted(g), hi, lo);
    ReadsIndex(g, hi', lo');
    hide ToUnicode, Index;
  }

  lemma CodeBounds(hi: bv8, lo: bv8)
    requires IsCode(hi, lo)
    ensures 0 <= lo as int - 0x40 <= 190
  {
  }

  lemma RowAndColumn(a: int, b: int, a': int, b': int)
    requires 0 <= b <= 190 && 0 <= b' <= 190 && 191 * a + b == 191 * a' + b'
    ensures a == a' && b == b'
  {
  }

  lemma SameIndex(hi: bv8, lo: bv8, hi': bv8, lo': bv8)
    requires IsCode(hi, lo) && IsCode(hi', lo')
    requires 191 * (hi as int - 0x81) + (lo as int - 0x40) == 191 * (hi' as int - 0x81) + (lo' as int - 0x40)
    ensures hi == hi' && lo == lo'
  {
    CodeBounds(hi, lo);
    CodeBounds(hi', lo');
    RowAndColumn(hi as int - 0x81, lo as int - 0x40, hi' as int - 0x81, lo' as int - 0x40);
    SameByte(hi, hi');
    SameByte(lo, lo');
  }

  /** No two codes read the same entry: some table tells them apart. */
  lemma DistinctEntries(hi: bv8, lo: bv8, hi': bv8, lo': bv8) returns (g: Table)
    requires IsCode(hi, lo) && IsCode(hi', lo') && (hi != hi' || lo != lo')
    ensures ToUnicode(g, hi, lo) != ToUnicode(g, hi', lo')
  {
    var mine, other := Index(hi - 0x81, lo - 0x40), Index(hi' - 0x81, lo' - 0x40);
    g := i => if i == mine then 1 else 0;
    ReadsIndex(g, hi, lo);
    ReadsIndex(g, hi', lo');
    hide ToUnicode, Index, IsCode;
    if mine == other {
      SameIndex(hi, lo, hi', lo');
    }
  }

  lemma SameByte(a: bv8, b: bv8)
    requires a as int == b as int
    ensures a == b
  {
  }

  // ----- GBK to UTF-8, character by character

  datatype Char = Ascii(b: bv8) | Pair(hi: bv8, lo: bv8)

  predicate IsChar(c: Char) {
    if c.Ascii? then c.b < 0x80 else c.hi >= 0x80
  }

  function BytesOf(c: Char): Bytes {
    if c.Ascii? then [c.b] else [c.hi, c.lo]
  }

  /** The code point of a character. */
  function PointOf(g: Table, c: Char): bv64 {
    if c.Ascii? then c.b as bv64 else ToUnicode(g, c.hi, c.lo) as bv64
  }

  function TextOf(cs: seq<Char>): Bytes {
    if cs == [] then [] else BytesOf(cs[0]) + TextOf(cs[1..])
  }

  function EncodedText(g: Table, cs: seq<Char>): Bytes {
    if cs == [] then [] else Encode(PointOf(g, cs[0])) + EncodedText(g, cs[1..])
  }

  /** What a lead byte at the end becomes together with the byte `z` after it. */
  function LastText(g: Table, last: Bytes, z: bv8): Bytes {
    if last == [] then [] else Encode(ToUnicode(g, last[0], z) as bv64)
  }

  lemma Regroup(a: Bytes, b: Bytes, c: Bytes)
    ensures a + b + c == a + (b + c)
  {
  }

  /** Any GBK text becomes the encodings of its characters, one after another; a lead
      byte at the end is paired with the byte that follows the buffer. */
  lemma {:induction false} ConvertsText(g: Table, cs: seq<Char>, last: Bytes, z: bv8)
    requires forall i :: 0 <= i < |cs| ==> IsChar(cs[i])
    requires |last| <= 1 && (last != [] ==> last[0] >= 0x80)
    ensures GbkToUtf8(g, TextOf(cs) + last, z) == EncodedText(g, cs) + LastText(g, last, z)
  {
    if cs == [] {
      assert [] + last == last;
      return;
    }
    TextHead(g, cs);
    hide Encode, ToUnicode, GbkToUtf8, BytesOf, PointOf, IsChar, LastText, TextOf, EncodedText;
    var c, text := cs[0], TextOf(cs[1..]);
    ConvertsText(g, cs[1..], last, z);
    Regroup(BytesOf(c), text, last);
    Regroup(Encode(PointOf(g, c)), EncodedText(g, cs[1..]), LastText(g, last, z));
    FirstChar(g, c, text + last, z);
  }

  lemma TextHead(g: Table, cs: seq<Char>)
    requires cs != []
    ensures TextOf(cs) == BytesOf(cs[0]) + TextOf(cs[1..])
    ensures EncodedText(g, cs) == Encode(PointOf(g, cs[0])) + EncodedText(g, cs[1..])
  {
    hide Encode, PointOf, BytesOf;
  }

  lemma FirstChar(g: Table, c: Char, rest: Bytes, z: bv8)
    requires IsChar(c)
    ensures GbkToUtf8(g, BytesOf(c) + rest, z) == Encode(PointOf(g, c)) + GbkToUtf8(g, rest, z)
  {
    if c.Ascii? {
      FirstAsciiByte(g, c.b, rest, z);
    } else {
      FirstPairOf(g, c.hi, c.lo, rest, z);
    }
    hide Encode, ToUnicode, GbkToUtf8;
  }

  lemma FirstAsciiByte(g: Table, b: bv8, rest: Bytes, z: bv8)
    requires b < 0x80
    ensures GbkToUtf8(g, [b] + rest, z) == Encode(b as bv64) + GbkToUtf8(g, rest, z)
  {
    hide Encode, ToUnicode;
    assert ([b] + rest)[1..] == rest;
  }

  lemma FirstPairOf(g: Table, hi: bv8, lo: bv8, rest: Bytes, z: bv8)
    requires hi >= 0x80
    ensures GbkToUtf8(g, [hi, lo] + rest, z) == Encode(ToUnicode(g, hi, lo) as bv64) + GbkToUtf8(g, rest, z)
  {
    hide Encode, ToUnicode;
    var src := [hi, lo] + rest;
    assert src[0] == hi && src[1] == lo && src[2..] == rest;
  }

  // ----- UTF-8 to GBK, block by block

  function Low16(c: bv64): bv16 {
    (c & 0xFFFF) as bv16
  }

  function Wide(c: bv16): bv64 {
    c as bv64
  }

  /** What a block becomes: itself, or the two bytes of the table entry of its code point. */
  function BlockBack(u: BackTable, b: Bytes): Bytes
    requires IsBlock(b) && (|b| == 1 || |b| == 3)
  {
    if |b| == 1 then b else TwoBytes(u(Low16(DecodeBlock(b))))
  }

  /** A code, high byte first. */
  function TwoBytes(code: bv16): Bytes {
    [(code / 256) as bv8, (code % 256) as bv8]
  }

  lemma TwoBytesAre(code: bv16)
    ensures TwoBytes(code) == [High(code), Low(code)]
  {
  }

  ghost predicate OneOrThree(bs: seq<Bytes>) {
    forall i :: 0 <= i < |bs| ==> |bs[i]| == 1 || |bs[i]| == 3
  }

  function BlocksBack(u: BackTable, bs: seq<Bytes>): Bytes
    requires forall i :: 0 <= i < |bs| ==> IsBlock(bs[i]) && (|bs[i]| == 1 || |bs[i]| == 3)
  {
    if bs == [] then [] else BlockBack(u, bs[0]) + BlocksBack(u, bs[1..])
  }

  lemma BlockFirst(u: BackTable, b: Bytes, rest: Bytes)
    requires IsBlock(b)
    ensures |b| == 1 || |b| == 3 ==> Utf8ToGbk(u, b + rest) == Prepend(BlockBack(u, b), Utf8ToGbk(u, rest))
    ensures |b| != 1 && |b| != 3 ==> Utf8ToGbk(u, b + rest) == None
  {
    LeadBits(b[0]);
    hide Assemble, LeadingOnes, DecodeBlock, High, Low, TwoBytes, Low16;
    var src := b + rest;
    assert src[0] == b[0] && src[|b|..] == rest;
    if |b| == 1 {
      assert b == [b[0]];
    }
    if |b| == 3 {
      assert src[1] == b[1] && src[2] == b[2];
      PointIs(b);
      TwoBytesAre(u(Assemble(b[0], b[1], b[2])));
    }
  }

  lemma DecodeThree(b: Bytes)
    requires IsBlock(b) && |b| == 3
    ensures DecodeBlock(b) == Join3(b[0], b[1], b[2])
  {
    hide IsBlock, Join2, Join3, Join4, Join5, Join6;
  }

  lemma PointIs(b: Bytes)
    requires IsBlock(b) && |b| == 3
    ensures Low16(DecodeBlock(b)) == Assemble(b[0], b[1], b[2])
  {
    hide IsBlock, DecodeBlock, Low16, Assemble, Join3, Wide;
    DecodeThree(b);
    WideAssemble(b[0], b[1], b[2]);
    LowWide(Assemble(b[0], b[1], b[2]));
  }

  lemma WideAssemble(a: bv8, b: bv8, c: bv8)
    ensures Wide(Assemble(a, b, c)) == Join3(a, b, c)
  {
    AssembleIsJoin(a, b, c);
    hide Assemble, Join3;
  }

  lemma LowWide(c: bv16)
    ensures Low16(Wide(c)) == c
  {
  }

  /** Well-formed text is converted if and only if all its characters have one byte or
      three, and then block by block. */
  lemma {:induction false} ConvertsBlocks(u: BackTable, bs: seq<Bytes>)
    requires forall i :: 0 <= i < |bs| ==> IsBlock(bs[i])
    ensures Utf8ToGbk(u, Flatten(bs)).Some? <==> OneOrThree(bs)
    ensures OneOrThree(bs) ==> Utf8ToGbk(u, Flatten(bs)) == Some(BlocksBack(u, bs))
  {
    if bs == [] {
      return;
    }
    hide IsBlock, BlockBack, Utf8ToGbk;
    var b, rest := bs[0], bs[1..];
    BlockFirst(u, b, Flatten(rest));
    ConvertsBlocks(u, rest);
    if |b| == 1 || |b| == 3 {
      assert OneOrThree(bs) <==> OneOrThree(rest) by {
        assert forall i :: 0 <= i < |rest| ==> rest[i] == bs[i + 1];
        if OneOrThree(rest) {
          forall i | 0 <= i < |bs| ensures |bs[i]| == 1 || |bs[i]| == 3 {
            if i > 0 {
              assert bs[i] == rest[i - 1];
            }
          }
        }
      }
    }
  }
}
