/** Conversion between GBK and UTF-8. The two code tables are parameters: what a
    theorem needs of them is stated for the text at hand. */
module Gbk {
  import opened Options
  import opened Utf8

  /** The GBK table, by index. */
  type Table = nat -> bv16

  /** The Unicode table, by code point. */
  type BackTable = bv16 -> bv16

  const GBK_TABLE_SIZE: nat := 24080

  const CJK_FIRST: bv16 := 0x4E00
  const CJK_LAST: bv16 := 0x9FA5

  function Index(row: bv8, col: bv8): nat {
    row as int * 0xBF + col as int
  }

  /** `gbk_to_unicode`: byte arithmetic wraps, codes outside the table give 0x1FFF. */
  function ToUnicode(g: Table, ch: bv8, cl: bv8): bv16 {
    var row, col := ch - 0x81, cl - 0x40;
    if row <= 0x7D && col <= 0xBE then g(Index(row, col)) else 0x1FFF
  }

  lemma IndexInTable(row: bv8, col: bv8)
    requires row <= 0x7D && col <= 0xBE
    ensures Index(row, col) < GBK_TABLE_SIZE
  {
  }

  /** The output of `gbk_to_utf8`; `z` is the byte that follows the buffer, read when
      the last byte is a lead byte. */
  function GbkToUtf8(g: Table, src: Bytes, z: bv8): Bytes {
    if src == [] then []
    else if src[0] < 0x80 then Encode(src[0] as bv64) + GbkToUtf8(g, src[1..], z)
    else if |src| == 1 then Encode(ToUnicode(g, src[0], z) as bv64)
    else Encode(ToUnicode(g, src[0], src[1]) as bv64) + GbkToUtf8(g, src[2..], z)
  }

  /** What is left to write when the loop stands at `i`, which is `len + 1` after a
      lead byte without a partner. */
  function Rest(g: Table, src: Bytes, len: nat, i: nat): Bytes
    requires len < |src|
  {
    if i <= len then GbkToUtf8(g, src[i..len], src[len]) else []
  }

  /** `gbk_to_utf8`, on `len` bytes of memory that one more byte follows. */
  method GbkToUtf8Buffer(g: Table, src: Bytes, len: nat, dst: array<bv8>) returns (j: nat)
    requires len < |src| && dst.Length > 3 * len
    modifies dst
    ensures j <= 3 * len && dst[..j] == GbkToUtf8(g, src[..len], src[len])
  {
    hide GbkToUtf8, Rest, Encode;
    var i := 0;
    j := 0;
    ghost var goal := Rest(g, src, len, 0);
    while i < len
      invariant j <= 3 * i && j <= 3 * len
      invariant goal == dst[..j] + Rest(g, src, len, i)
    {
      ghost var done := dst[..j];
      var c, step := NextChar(g, src, len, i);
      var n := UnicodeToUtf8(c, dst, j);
      assert dst[..j + n] == done + Encode(c);
      j := j + n;
      i := i + step;
    }
    RestDone(g, src, len, i);
  }

  /** The character at `i`, and how many bytes it takes. */
  method NextChar(g: Table, src: Bytes, len: nat, i: nat) returns (c: bv64, step: nat)
    requires i < len < |src|
    ensures 1 <= step <= 2 && |Encode(c)| <= 3
    ensures Rest(g, src, len, i) == Encode(c) + Rest(g, src, len, i + step)
  {
    hide Encode, ToUnicode, Rest;
    if src[i] < 0x80 {
      c, step := src[i] as bv64, 1;
    } else {
      c, step := ToUnicode(g, src[i], src[i + 1]) as bv64, 2;
    }
    TextStep(g, src, len, i, c, step);
    EncodeLength(c);
  }

  lemma RestDone(g: Table, src: Bytes, len: nat, i: nat)
    requires len < |src| && i >= len
    ensures Rest(g, src, len, i) == []
    ensures Rest(g, src, len, 0) == GbkToUtf8(g, src[..len], src[len])
  {
    assert src[0..len] == src[..len];
  }

  /** One turn of the loop consumes one character of the text. */
  lemma TextStep(g: Table, src: Bytes, len: nat, i: nat, c: bv64, step: nat)
    requires i < len < |src|
    requires src[i] < 0x80 ==> c == src[i] as bv64 && step == 1
    requires src[i] >= 0x80 ==> c == ToUnicode(g, src[i], src[i + 1]) as bv64 && step == 2
    ensures Rest(g, src, len, i) == Encode(c) + Rest(g, src, len, i + step)
    ensures c < 0x1_0000
  {
    hide Encode, ToUnicode;
    assert src[i..len][1..] == src[i + 1..len];
    if i + 2 <= len {
      assert src[i..len][2..] == src[i + 2..len];
    }
  }

  /** Whatever the table holds and whatever the input is, the output is well-formed
      UTF-8: the validator accepts it. */
  lemma {:induction false} OutputWellFormed(g: Table, src: Bytes, z: bv8)
    ensures WellFormed(GbkToUtf8(g, src, z))
  {
    OutputAccepted(g, src, z);
    AcceptsIffWellFormed(GbkToUtf8(g, src, z));
  }

  lemma {:induction false} OutputAccepted(g: Table, src: Bytes, z: bv8)
    ensures Accepts(GbkToUtf8(g, src, z), 0)
    decreases |src|
  {
    hide Encode, ToUnicode;
    if src == [] {
    } else if src[0] < 0x80 {
      OutputAccepted(g, src[1..], z);
      EncodeAccepted(src[0] as bv64, GbkToUtf8(g, src[1..], z));
    } else if |src| == 1 {
      var c := ToUnicode(g, src[0], z) as bv64;
      EncodeAccepted(c, []);
      assert Encode(c) + [] == Encode(c);
    } else {
      OutputAccepted(g, src[2..], z);
      EncodeAccepted(ToUnicode(g, src[0], src[1]) as bv64, GbkToUtf8(g, src[2..], z));
    }
  }

  lemma EncodeAccepted(c: bv64, rest: Bytes)
    requires c < 0x8000_0000 && Accepts(rest, 0)
    ensures Accepts(Encode(c) + rest, 0)
  {
    if c == 0 {
      assert Encode(c) + rest == rest;
    } else {
      EncodeIsBlock(c);
      hide Encode, IsBlock, Accepts;
      AcceptsBlock(Encode(c), rest);
    }
  }

  // ----- Back to GBK

  /** The code point of a three-byte block, as `utf8_to_gbk` assembles it. */
  function Assemble(a: bv8, b: bv8, c: bv8): bv16 {
    (((a & 0x0F) as bv16) << 12) | (((b & 0x3F) as bv16) << 6) | ((c & 0x3F) as bv16)
  }

  function High(code: bv16): bv8 {
    (code >> 8) as bv8
  }

  function Low(code: bv16): bv8 {
    (code & 0xFF) as bv8
  }

  /** The output of `utf8_to_gbk`; `None` is its result -1. Only one-byte and
      three-byte characters are accepted. */
  function Utf8ToGbk(u: BackTable, src: Bytes): Option<Bytes> {
    if src == [] then Some([])
    else if src[0] & 0x80 == 0 then Prepend([src[0]], Utf8ToGbk(u, src[1..]))
    else if src[0] & 0xF0 == 0xE0 && |src| > 2 then
      var code := u(Assemble(src[0], src[1], src[2]));
      Prepend([High(code), Low(code)], Utf8ToGbk(u, src[3..]))
    else None
  }

  function Prepend(head: Bytes, tail: Option<Bytes>): Option<Bytes> {
    match tail
    case None => None
    case Some(t) => Some(head + t)
  }

  /** The index into the Unicode table that is read for a code point, in two's
      complement: an index before the table is one of 2^31 and more. */
  function TableIndex(code: bv16): bv32 {
    (code as bv32) - (CJK_FIRST as bv32)
  }

  /** All indices that `utf8_to_gbk` reads, in order. */
  function TableReads(src: Bytes): seq<bv32> {
    if src == [] then []
    else if src[0] & 0x80 == 0 then TableReads(src[1..])
    else if src[0] & 0xF0 == 0xE0 && |src| > 2 then
      [TableIndex(Assemble(src[0], src[1], src[2]))] + TableReads(src[3..])
    else []
  }

  /** `utf8_to_gbk`: -1, or the number of bytes written; `visited` are the indices read
      from the table. */
  method Utf8ToGbkBuffer(u: BackTable, src: Bytes, out: array<bv8>) returns (j: int, ghost visited: seq<bv32>)
    requires out.Length >= |src|
    modifies out
    ensures Utf8ToGbk(u, src).None? <==> j == -1
    ensures Utf8ToGbk(u, src).Some? ==> 0 <= j <= out.Length && Utf8ToGbk(u, src).value == out[..j]
    ensures visited == TableReads(src)
  {
    hide Assemble, High, Low, TableIndex;
    var i := 0;
    j, visited := 0, [];
    assert src[0..] == src;
    PrependNothing(Utf8ToGbk(u, src));
    while i < |src|
      invariant 0 <= j <= i <= |src|
      invariant Utf8ToGbk(u, src) == Prepend(out[..j], Utf8ToGbk(u, src[i..]))
      invariant TableReads(src) == visited + TableReads(src[i..])
    {
      ghost var done, rest := out[..j], src[i..];
      if src[i] & 0x80 == 0 {
        assert rest[1..] == src[i + 1..];
        PrependTwice(done, [src[i]], Utf8ToGbk(u, src[i + 1..]));
        out[j] := src[i];
        assert out[..j + 1] == done + [src[i]];
        i, j := i + 1, j + 1;
      } else if src[i] & 0xF0 == 0xE0 {
        if i + 2 >= |src| {
          return -1, visited;
        }
        assert rest[3..] == src[i + 3..];
        visited := visited + [TableIndex(Assemble(src[i], src[i + 1], src[i + 2]))];
        var code := u(Assemble(src[i], src[i + 1], src[i + 2]));
        PrependTwice(done, [High(code), Low(code)], Utf8ToGbk(u, src[i + 3..]));
        out[j] := High(code);
        out[j + 1] := Low(code);
        assert out[..j + 2] == done + [High(code), Low(code)];
        i, j := i + 3, j + 2;
      } else {
        return -1, visited;
      }
    }
  }

  lemma PrependNothing(t: Option<Bytes>)
    ensures Prepend([], t) == t
  {
    if t.Some? {
      assert [] + t.value == t.value;
    }
  }

  lemma PrependTwice(a: Bytes, b: Bytes, t: Option<Bytes>)
    ensures Prepend(a, Prepend(b, t)) == Prepend(a + b, t)
  {
    if t.Some? {
      assert a + (b + t.value) == (a + b) + t.value;
    }
  }

  // ----- Which texts stay inside the Unicode table

  const UNICODE_TABLE_SIZE: bv32 := 20902

  predicate AllInside(visited: seq<bv32>) {
    forall i :: 0 <= i < |visited| ==> visited[i] < UNICODE_TABLE_SIZE
  }

  /** Every three-byte character up to the first of another length than one or three,
      where the conversion gives up, is one of U+4E00 to U+9FA5. */
  predicate IdeographsOnly(bs: seq<Bytes>)
    requires forall i :: 0 <= i < |bs| ==> IsBlock(bs[i])
  {
    if bs == [] then true
    else if |bs[0]| == 1 then IdeographsOnly(bs[1..])
    else |bs[0]| == 3 ==> CJK_FIRST as bv64 <= DecodeBlock(bs[0]) <= CJK_LAST as bv64 && IdeographsOnly(bs[1..])
  }

  lemma IndexInside(code: bv16)
    ensures TableIndex(code) < UNICODE_TABLE_SIZE <==> IsCjk(code)
  {
  }

  lemma AssembleIsJoin(a: bv8, b: bv8, c: bv8)
    ensures Assemble(a, b, c) as bv64 == Join3(a, b, c)
  {
  }

  lemma LeadBits(b: bv8)
    ensures b & 0x80 == 0 <==> LeadingOnes(b) == 0
    ensures b & 0xF0 == 0xE0 <==> LeadingOnes(b) == 3
  {
  }

  lemma BlockReads(b: Bytes, rest: Bytes)
    requires IsBlock(b)
    ensures |b| == 1 ==> TableReads(b + rest) == TableReads(rest)
    ensures |b| == 3 ==> TableReads(b + rest) == [TableIndex(Assemble(b[0], b[1], b[2]))] + TableReads(rest)
    ensures |b| != 1 && |b| != 3 ==> TableReads(b + rest) == []
  {
    LeadBits(b[0]);
    hide TableIndex, Assemble, LeadingOnes;
    var src := b + rest;
    assert src[0] == b[0] && src[|b|..] == rest;
    if |b| == 3 {
      assert src[1] == b[1] && src[2] == b[2];
    }
  }

  lemma BlockInside(b: Bytes)
    requires IsBlock(b) && |b| == 3
    ensures TableIndex(Assemble(b[0], b[1], b[2])) < UNICODE_TABLE_SIZE <==>
            CJK_FIRST as bv64 <= DecodeBlock(b) <= CJK_LAST as bv64
  {
    var code := Assemble(b[0], b[1], b[2]);
    AssembleIsJoin(b[0], b[1], b[2]);
    IndexInside(code);
    hide Assemble, Join3, IsBlock, TableIndex;
  }

  lemma AllInsideStep(x: bv32, rest: seq<bv32>)
    ensures AllInside([x] + rest) <==> x < UNICODE_TABLE_SIZE && AllInside(rest)
  {
    var s := [x] + rest;
    assert s[0] == x && forall i :: 0 <= i < |rest| ==> s[i + 1] == rest[i];
  }

  /** On well-formed text `utf8_to_gbk` reads inside its table of 20902 entries if and
      only if every three-byte character it gets to is an ideograph of that range. */
  lemma {:induction false} ReadsInsideIff(bs: seq<Bytes>)
    requires forall i :: 0 <= i < |bs| ==> IsBlock(bs[i])
    ensures AllInside(TableReads(Flatten(bs))) <==> IdeographsOnly(bs)
  {
    if bs == [] {
      return;
    }
    hide TableReads, TableIndex, Assemble, DecodeBlock, AllInside, IsBlock;
    var b, rest := bs[0], Flatten(bs[1..]);
    BlockReads(b, rest);
    if |b| == 1 {
      ReadsInsideIff(bs[1..]);
    } else if |b| == 3 {
      ReadsInsideIff(bs[1..]);
      BlockInside(b);
      AllInsideStep(TableIndex(Assemble(b[0], b[1], b[2])), TableReads(rest));
    } else {
      NothingRead();
    }
  }

  lemma NothingRead()
    ensures AllInside([])
  {
  }

  /** The ideographic full stop U+3002 is read from before the table. */
  lemma FullStopOutside()
    ensures Encode(0x3002) == [0xE3, 0x80, 0x82] && !AllInside(TableReads([0xE3, 0x80, 0x82]))
  {
    var src: Bytes := [0xE3, 0x80, 0x82];
    assert Assemble(0xE3, 0x80, 0x82) == 0x3002;
    IndexInside(0x3002);
    hide Assemble, TableIndex;
    assert src[0] == 0xE3 && src[1] == 0x80 && src[2] == 0x82;
    assert TableReads(src)[0] == TableIndex(0x3002);
  }

  // ----- Round trips

  predicate IsCjk(c: bv16) {
    CJK_FIRST <= c <= CJK_LAST
  }

  /** NUL-free ASCII and two-byte codes that the table maps to CJK ideographs. */
  predicate CjkGbk(g: Table, src: Bytes) {
    src == []
    || (0 < src[0] < 0x80 && CjkGbk(g, src[1..]))
    || (src[0] >= 0x80 && |src| >= 2 && IsCjk(ToUnicode(g, src[0], src[1])) && CjkGbk(g, src[2..]))
  }

  function Code(hi: bv8, lo: bv8): bv16 {
    ((hi as bv16) << 8) | (lo as bv16)
  }

  /** The Unicode table maps every two-byte code of the text back to itself. */
  predicate CodesReturn(g: Table, u: BackTable, src: Bytes) {
    if src == [] then true
    else if src[0] < 0x80 || |src| == 1 then CodesReturn(g, u, src[1..])
    else u(ToUnicode(g, src[0], src[1])) == Code(src[0], src[1]) && CodesReturn(g, u, src[2..])
  }

  lemma AsciiBack(u: BackTable, b: bv8, rest: Bytes)
    requires 0 < b < 0x80
    ensures Encode(b as bv64) == [b]
    ensures Utf8ToGbk(u, [b] + rest) == Prepend([b], Utf8ToGbk(u, rest))
  {
    assert ([b] + rest)[1..] == rest;
  }

  lemma CjkBack(u: BackTable, c: bv16, rest: Bytes)
    requires IsCjk(c)
    ensures |Encode(c as bv64)| == 3
    ensures Utf8ToGbk(u, Encode(c as bv64) + rest) == Prepend([High(u(c)), Low(u(c))], Utf8ToGbk(u, rest))
  {
    var e := Encode(c as bv64);
    AssembleSplit(c);
    var b := e + rest;
    assert b[0] == e[0] && b[1] == e[1] && b[2] == e[2] && b[3..] == rest;
    assert b[0] & 0x80 != 0;
    hide Assemble, High, Low;
  }

  lemma AssembleBits(c: bv16)
    ensures var a := 0xE0 | (((c as bv64) >> 12) & 0x0F) as bv8;
            Assemble(a, Cont((c as bv64) >> 6), Cont(c as bv64)) == c && a & 0xF0 == 0xE0
  {
  }

  lemma AssembleSplit(c: bv16)
    requires IsCjk(c)
    ensures var e := Encode(c as bv64);
            |e| == 3 && Assemble(e[0], e[1], e[2]) == c && e[0] & 0xF0 == 0xE0
  {
    AssembleBits(c);
    hide Assemble, Cont;
  }

  lemma CodeBytes(code: bv16, hi: bv8, lo: bv8)
    ensures code == Code(hi, lo) <==> High(code) == hi && Low(code) == lo
  {
    CodeParts(hi, lo);
    CodeWhole(code);
    hide Code, High, Low;
  }

  lemma CodeParts(hi: bv8, lo: bv8)
    ensures High(Code(hi, lo)) == hi && Low(Code(hi, lo)) == lo
  {
  }

  lemma CodeWhole(code: bv16)
    ensures Code(High(code), Low(code)) == code
  {
  }

  lemma SplitHead(head: Bytes, tail: Bytes, src: Bytes)
    requires |head| <= |src|
    ensures head + tail == src <==> head == src[..|head|] && tail == src[|head|..]
  {
    assert (head + tail)[..|head|] == head && (head + tail)[|head|..] == tail;
    assert src == src[..|head|] + src[|head|..];
  }

  /** The way back works out, and gives `src` again exactly when its codes return. */
  predicate ComesBack(g: Table, u: BackTable, src: Bytes, back: Option<Bytes>) {
    back.Some? && |back.value| == |src| && (back.value == src <==> CodesReturn(g, u, src))
  }

  lemma AsciiStep(g: Table, u: BackTable, src: Bytes, rest: Bytes)
    requires src != [] && src[0] < 0x80 && ComesBack(g, u, src[1..], Some(rest))
    ensures ComesBack(g, u, src, Some([src[0]] + rest))
  {
    SplitHead([src[0]], rest, src);
  }

  lemma PairStep(g: Table, u: BackTable, src: Bytes, code: bv16, rest: Bytes)
    requires |src| >= 2 && src[0] >= 0x80 && code == u(ToUnicode(g, src[0], src[1]))
    requires ComesBack(g, u, src[2..], Some(rest))
    ensures ComesBack(g, u, src, Some([High(code), Low(code)] + rest))
  {
    CodeBytes(code, src[0], src[1]);
    hide ToUnicode, High, Low, Code;
    var head := [High(code), Low(code)];
    SplitHead(head, rest, src);
    assert head == src[..2] <==> head[0] == src[0] && head[1] == src[1];
  }

  /** The first character of a text, and what the way there and back makes of it. */
  lemma FirstAscii(g: Table, u: BackTable, src: Bytes, z: bv8)
    requires CjkGbk(g, src) && src != [] && src[0] < 0x80
    ensures CjkGbk(g, src[1..])
    ensures Utf8ToGbk(u, GbkToUtf8(g, src, z)) == Prepend([src[0]], Utf8ToGbk(u, GbkToUtf8(g, src[1..], z)))
  {
    AsciiBack(u, src[0], GbkToUtf8(g, src[1..], z));
    hide Encode, Utf8ToGbk;
  }

  lemma FirstPair(g: Table, u: BackTable, src: Bytes, z: bv8)
    requires CjkGbk(g, src) && src != [] && src[0] >= 0x80
    ensures |src| >= 2 && CjkGbk(g, src[2..])
    ensures var code := u(ToUnicode(g, src[0], src[1]));
            Utf8ToGbk(u, GbkToUtf8(g, src, z)) ==
            Prepend([High(code), Low(code)], Utf8ToGbk(u, GbkToUtf8(g, src[2..], z)))
  {
    hide Encode, ToUnicode, Utf8ToGbk, High, Low, Prepend;
    CjkBack(u, ToUnicode(g, src[0], src[1]), GbkToUtf8(g, src[2..], z));
  }

  /** GBK to UTF-8 and back gives the text again, length included, exactly when the
      tables agree on every two-byte code in it. */
  lemma {:induction false} GbkRoundTrip(g: Table, u: BackTable, src: Bytes, z: bv8)
    requires CjkGbk(g, src)
    ensures ComesBack(g, u, src, Utf8ToGbk(u, GbkToUtf8(g, src, z)))
    decreases |src|
  {
    if src == [] {
      return;
    }
    hide CjkGbk, GbkToUtf8, Utf8ToGbk, CodesReturn, ToUnicode, High, Low;
    if src[0] < 0x80 {
      FirstAscii(g, u, src, z);
      GbkRoundTrip(g, u, src[1..], z);
      AsciiStep(g, u, src, Utf8ToGbk(u, GbkToUtf8(g, src[1..], z)).value);
    } else {
      FirstPair(g, u, src, z);
      GbkRoundTrip(g, u, src[2..], z);
      PairStep(g, u, src, u(ToUnicode(g, src[0], src[1])), Utf8ToGbk(u, GbkToUtf8(g, src[2..], z)).value);
    }
  }

  /** The Unicode table undoes the GBK table wherever that one gives an ideograph. */
  ghost predicate Inverse(g: Table, u: BackTable) {
    forall hi, lo :: IsCjk(ToUnicode(g, hi, lo)) ==> u(ToUnicode(g, hi, lo)) == Code(hi, lo)
  }

  /** Every text of ASCII and ideographs survives the way there and back. */
  ghost predicate AllReturn(g: Table, u: BackTable) {
    forall src, z :: CjkGbk(g, src) ==> Utf8ToGbk(u, GbkToUtf8(g, src, z)) == Some(src)
  }

  lemma {:induction false} InverseReturns(g: Table, u: BackTable, src: Bytes)
    requires Inverse(g, u) && CjkGbk(g, src)
    ensures CodesReturn(g, u, src)
    decreases |src|
  {
    hide IsCjk, ToUnicode, Code;
    if src != [] {
      if src[0] < 0x80 {
        InverseReturns(g, u, src[1..]);
      } else {
        InverseReturns(g, u, src[2..]);
      }
    }
  }

  lemma IdeographsHaveLeads(g: Table, hi: bv8, lo: bv8)
    requires IsCjk(ToUnicode(g, hi, lo))
    ensures hi >= 0x80
  {
  }

  lemma PairAlone(g: Table, u: BackTable, hi: bv8, lo: bv8)
    requires IsCjk(ToUnicode(g, hi, lo))
    ensures CjkGbk(g, [hi, lo])
    ensures CodesReturn(g, u, [hi, lo]) <==> u(ToUnicode(g, hi, lo)) == Code(hi, lo)
  {
    IdeographsHaveLeads(g, hi, lo);
    hide IsCjk, ToUnicode, Code;
    assert [hi, lo][2..] == [];
  }

  /** The two conversions undo each other on all such texts exactly when the tables
      are inverse on the ideographs. */
  lemma RoundTripIffInverse(g: Table, u: BackTable)
    ensures AllReturn(g, u) <==> Inverse(g, u)
  {
    hide IsCjk, ToUnicode, Code, CjkGbk, CodesReturn, Utf8ToGbk, GbkToUtf8;
    if Inverse(g, u) {
      forall src, z | CjkGbk(g, src) ensures Utf8ToGbk(u, GbkToUtf8(g, src, z)) == Some(src) {
        InverseReturns(g, u, src);
        GbkRoundTrip(g, u, src, z);
      }
    }
    if AllReturn(g, u) {
      forall hi, lo | IsCjk(ToUnicode(g, hi, lo)) ensures u(ToUnicode(g, hi, lo)) == Code(hi, lo) {
        PairAlone(g, u, hi, lo);
        GbkRoundTrip(g, u, [hi, lo], 0);
        assert Utf8ToGbk(u, GbkToUtf8(g, [hi, lo], 0)) == Some([hi, lo]);
      }
    }
  }

  // ----- The way back stays inside the Unicode table

  lemma AsciiReads(b: bv8, rest: Bytes)
    requires 0 < b < 0x80
    ensures TableReads(Encode(b as bv64) + rest) == TableReads(rest)
  {
    var e := Encode(b as bv64);
    EncodeIsBlock(b as bv64);
    assert |e| == 1;
    hide Encode, IsBlock, TableReads;
    BlockReads(e, rest);
  }

  lemma CjkReads(c: bv16, rest: Bytes)
    requires IsCjk(c) && AllInside(TableReads(rest))
    ensures AllInside(TableReads(Encode(c as bv64) + rest))
  {
    var e := Encode(c as bv64);
    EncodeIsBlock(c as bv64);
    AssembleSplit(c);
    IndexInside(c);
    hide Encode, IsBlock, TableReads, AllInside, Assemble, TableIndex, IsCjk;
    BlockReads(e, rest);
    AllInsideStep(TableIndex(c), TableReads(rest));
  }

  /** On the texts of the round trip the conversion back reads its table of 20902
      entries only. */
  lemma {:induction false} BackReadsInside(g: Table, src: Bytes, z: bv8)
    requires CjkGbk(g, src)
    ensures AllInside(TableReads(GbkToUtf8(g, src, z)))
    decreases |src|
  {
    hide Encode, ToUnicode, IsCjk, TableReads;
    if src == [] {
      NothingEncoded();
    } else if src[0] < 0x80 {
      BackReadsInside(g, src[1..], z);
      AsciiReads(src[0], GbkToUtf8(g, src[1..], z));
    } else {
      BackReadsInside(g, src[2..], z);
      CjkReads(ToUnicode(g, src[0], src[1]), GbkToUtf8(g, src[2..], z));
    }
  }

  lemma NothingEncoded()
    ensures TableReads([]) == [] && AllInside([])
  {
  }
}
