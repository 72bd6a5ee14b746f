/** Writing and reading bitmap files. */
module Bmp {
  import opened Options
  import opened ByteTypes

  /** One ARGB cell, as four bytes in memory order. The loader names them reserved,
      red, green and blue. */
  datatype Pixel = Pixel(b0: Byte, b1: Byte, b2: Byte, b3: Byte) {
    function At(t: int): Byte {
      if t == 0 then b0 else if t == 1 then b1 else if t == 2 then b2 else b3
    }

    function Reverse(): Pixel {
      Pixel(b3, b2, b1, b0)
    }
  }

  const HEADER_SIZE: nat := 54

  // ----- Index arithmetic

  lemma RowEnds(y: nat, h: nat, w: nat)
    requires y < h
    ensures y * w + w == (y + 1) * w <= h * w
  {
    assert (y + 1) * w + (h - y - 1) * w == h * w;
  }

  /** The position of row y, column x in a buffer of h rows of w cells. */
  function Cell(y: nat, x: nat, w: nat, h: nat): (p: nat)
    requires y < h && x < w
    ensures p < h * w
  {
    RowEnds(y, h, w);
    y * w + x
  }

  lemma CellInside(y: nat, x: nat, w: nat, h: nat)
    requires y < h && x < w
    ensures Cell(y, x, w, h) == y * w + x < h * w
  {
  }

  /** A row more leaves the cells of the rows before it where they are. */
  lemma CellSplit(y: nat, x: nat, w: nat, h: nat)
    requires y < h && x < w
    ensures y < h - 1 ==> Cell(y, x, w, h) == Cell(y, x, w, h - 1)
    ensures y == h - 1 ==> Cell(y, x, w, h) == (h - 1) * w + x
  {
  }

  // ----- The writer

  /** The four bytes of a header field, least significant first. */
  function Le32(v: nat): (s: seq<Byte>)
    ensures |s| == 4
  {
    [v % 256, v / 256 % 256, v / 65536 % 256, v / 16777216 % 256]
  }

  function FileHeader(w: nat, h: nat): (s: seq<Byte>)
    ensures |s| == 14
  {
    [0x42, 0x4D] + Le32(HEADER_SIZE + 4 * w * h) + [0, 0, 0, 0] + [54, 0, 0, 0]
  }

  function InfoHeader(w: nat, h: nat): (s: seq<Byte>)
    ensures |s| == 40
  {
    [40, 0, 0, 0] + Le32(w) + Le32(h) + [1, 0, 32, 0] + seq(24, _ => 0)
  }

  function Header(w: nat, h: nat): (s: seq<Byte>)
    ensures |s| == HEADER_SIZE
  {
    FileHeader(w, h) + InfoHeader(w, h)
  }

  /** The bytes of a stretch of pixels. */
  function Flat(px: seq<Pixel>): (s: seq<Byte>)
    ensures |s| == 4 * |px|
  {
    seq(4 * |px|, i requires 0 <= i < 4 * |px| => px[i / 4].At(i % 4))
  }

  lemma FlatAt(px: seq<Pixel>, i: nat, t: nat)
    requires i < |px| && t < 4
    ensures Flat(px)[4 * i + t] == px[i].At(t)
  {
    assert (4 * i + t) / 4 == i && (4 * i + t) % 4 == t;
  }

  lemma FlatBoth(a: seq<Pixel>, b: seq<Pixel>)
    ensures Flat(a + b) == Flat(a) + Flat(b)
  {
    forall i | 0 <= i < 4 * |a + b| ensures Flat(a + b)[i] == (Flat(a) + Flat(b))[i] {
      assert i == 4 * (i / 4) + i % 4;
      FlatAt(a + b, i / 4, i % 4);
      if i / 4 < |a| {
        FlatAt(a, i / 4, i % 4);
      } else {
        FlatAt(b, i / 4 - |a|, i % 4);
      }
    }
  }

  /** Row `y` of a buffer, counted from the top. */
  function Row(px: seq<Pixel>, w: nat, h: nat, y: nat): (r: seq<Pixel>)
    requires |px| == h * w && y < h
    ensures |r| == w
  {
    RowEnds(y, h, w);
    px[y * w..y * w + w]
  }

  /** The `k` lowest rows, bottom up: the order in which they go to the file. */
  function Flipped(px: seq<Pixel>, w: nat, h: nat, k: nat): (s: seq<Pixel>)
    requires |px| == h * w && k <= h
    ensures |s| == k * w
  {
    if k == 0 then [] else Flipped(px, w, h, k - 1) + Row(px, w, h, h - k)
  }

  function SavedFile(px: seq<Pixel>, w: nat, h: nat): seq<Byte>
    requires |px| == h * w
  {
    Header(w, h) + Flat(Flipped(px, w, h, h))
  }

  /** `save_argb8888_to_bmp`: the bytes of the file. */
  method SaveBmp(px: seq<Pixel>, w: nat, h: nat) returns (file: seq<Byte>)
    requires |px| == h * w
    ensures file == SavedFile(px, w, h)
  {
    hide Flat, Row;
    file := FileHeader(w, h);
    file := file + InfoHeader(w, h);
    FlatEmpty();
    for k := 0 to h
      invariant file == Header(w, h) + Flat(Flipped(px, w, h, k))
    {
      FlatBoth(Flipped(px, w, h, k), Row(px, w, h, h - k - 1));
      file := file + Flat(Row(px, w, h, h - k - 1));
    }
  }

  lemma FlatEmpty()
    ensures Flat([]) == []
  {
  }

  lemma FlippedStep(px: seq<Pixel>, w: nat, h: nat, k: nat)
    requires |px| == h * w && 0 < k <= h
    ensures Flipped(px, w, h, k) == Flipped(px, w, h, k - 1) + Row(px, w, h, h - k)
  {
  }

  /** Where each pixel ends up in the file. */
  lemma {:induction false} FlippedAt(px: seq<Pixel>, w: nat, h: nat, k: nat, y: nat, x: nat)
    requires |px| == h * w && y < k <= h && x < w
    ensures Flipped(px, w, h, k)[Cell(y, x, w, k)] == px[Cell(h - 1 - y, x, w, h)]
  {
    RowAt(px, w, h, h - 1 - y, x);
    FlippedStep(px, w, h, k);
    hide *;
    StackAt(Flipped(px, w, h, k - 1), Row(px, w, h, h - k), y, x, w, k);
    if y < k - 1 {
      FlippedAt(px, w, h, k - 1, y, x);
    }
  }

  lemma RowAt(px: seq<Pixel>, w: nat, h: nat, y: nat, x: nat)
    requires |px| == h * w && y < h && x < w
    ensures Row(px, w, h, y)[x] == px[Cell(y, x, w, h)]
  {
    RowEnds(y, h, w);
    SliceAt(px, y * w, w, x);
  }

  lemma SliceAt<T>(s: seq<T>, base: nat, w: nat, x: nat)
    requires base + w <= |s| && x < w
    ensures s[base..base + w][x] == s[base + x]
  {
  }

  lemma AppendLeft<T>(a: seq<T>, b: seq<T>, x: nat)
    requires x < |a|
    ensures (a + b)[x] == a[x]
  {
  }

  /** The cells of a stack of rows with one row more. */
  lemma StackAt<T>(init: seq<T>, row: seq<T>, y: nat, x: nat, w: nat, k: nat)
    requires y < k && x < w && |init| == (k - 1) * w && |row| == w
    ensures |init + row| == k * w
    ensures (init + row)[Cell(y, x, w, k)] == if y < k - 1 then init[Cell(y, x, w, k - 1)] else row[x]
  {
    RowEnds(k - 1, k, w);
    CellSplit(y, x, w, k);
    hide Cell;
    if y < k - 1 {
      AppendLeft(init, row, Cell(y, x, w, k - 1));
    } else {
      AppendAt(init, row, x);
    }
  }

  lemma AppendAt<T>(a: seq<T>, b: seq<T>, x: nat)
    requires x < |b|
    ensures (a + b)[|a| + x] == b[x]
  {
  }

  // ----- The reader

  /** What uninitialised memory holds, by position in the file it was to be read
      from. */
  type Noise = int -> Byte

  function ByteAt(file: seq<Byte>, noise: Noise, p: int): Byte {
    if 0 <= p < |file| then file[p] else noise(p)
  }

  function U16(file: seq<Byte>, noise: Noise, p: int): nat {
    ByteAt(file, noise, p) + 256 * ByteAt(file, noise, p + 1)
  }

  function U32(file: seq<Byte>, noise: Noise, p: int): nat {
    U16(file, noise, p) + 65536 * U16(file, noise, p + 2)
  }

  function S32(file: seq<Byte>, noise: Noise, p: int): int {
    var v := U32(file, noise, p);
    if v < 0x8000_0000 then v else v - 0x1_0000_0000
  }

  /** The header fields the loader uses. */
  datatype Info = Info(offset: nat, width: int, height: int, bits: nat)

  /** `bmp_check`. */
  function Check(file: seq<Byte>, noise: Noise): Option<Info> {
    var info := Info(U32(file, noise, 10), S32(file, noise, 18), S32(file, noise, 22), U16(file, noise, 28));
    if U16(file, noise, 0) != 0x4D42 || info.bits < 24 || info.offset < 52 then None else Some(info)
  }

  /** `WIDTHBYTES`: the row length, rounded up to whole 32-bit words. */
  function WidthBytes(bits: int): int {
    (bits + 31) / 32 * 4
  }

  /** The pixel bytes as the loader sees them: from the data offset on. */
  function DataAt(file: seq<Byte>, noise: Noise, info: Info, q: int): Byte {
    ByteAt(file, noise, info.offset + q)
  }

  /** One pixel of the loaded buffer, at row y and column x from the top left. */
  function LoadPixel(file: seq<Byte>, noise: Noise, info: Info, y: int, x: int): Pixel {
    var row := (info.height - y - 1) * WidthBytes(info.width * info.bits);
    if info.bits == 24 then
      Opaque24(DataAt(file, noise, info, row + x * 3), DataAt(file, noise, info, row + x * 3 + 1),
               DataAt(file, noise, info, row + x * 3 + 2))
    else
      Pixel(DataAt(file, noise, info, row + x * 4 + 3), DataAt(file, noise, info, row + x * 4 + 2),
            DataAt(file, noise, info, row + x * 4 + 1), DataAt(file, noise, info, row + x * 4))
  }

  /** A 24-bit pixel is opaque unless it has the key colour (8, 0, 0). */
  function Opaque24(blue: Byte, green: Byte, red: Byte): Pixel {
    Pixel(if blue == 8 && green == 0 && red == 0 then 0 else 255, red, green, blue)
  }

  function LoadRow(file: seq<Byte>, noise: Noise, info: Info, y: int, w: nat): seq<Pixel> {
    seq(w, x => LoadPixel(file, noise, info, y, x))
  }

  /** The first `k` rows of the loaded buffer. */
  function LoadRows(file: seq<Byte>, noise: Noise, info: Info, w: nat, k: nat): (s: seq<Pixel>)
    ensures |s| == k * w
  {
    if k == 0 then [] else LoadRows(file, noise, info, w, k - 1) + LoadRow(file, noise, info, k - 1, w)
  }

  /** The width and height of the header, and the pixels from top left on. A file
      whose width and height are both negative passes every test and gives a buffer
      that no loop fills. */
  datatype Image = Image(width: int, height: int, pixels: seq<Pixel>)

  const ZERO := Pixel(0, 0, 0, 0)

  function Pixels(file: seq<Byte>, noise: Noise, info: Info): seq<Pixel> {
    if info.width > 0 && info.height > 0 then LoadRows(file, noise, info, info.width, info.height)
    else if info.width < 0 && info.height < 0 then seq(info.width * info.height, _ => ZERO)
    else []
  }

  /** What `load_bmp_form_file` does with the content of a file; `None` is -1. */
  function Loaded(file: seq<Byte>, noise: Noise): Option<Image> {
    match Check(file, noise)
    case None => None
    case Some(info) =>
      var dataSize := WidthBytes(info.width * info.bits) * info.height;
      if dataSize <= 0 || info.offset >= |file| then None
      else Some(Image(info.width, info.height, Pixels(file, noise, info)))
  }

  /** The loop body of `bmp24_to_argb8888` and `bmp32_to_argb8888`. */
  method ReadPixel(file: seq<Byte>, noise: Noise, info: Info, i: nat, j: nat) returns (p: Pixel)
    ensures p == LoadPixel(file, noise, info, i, j)
  {
    var pitch := WidthBytes(info.width * info.bits);
    if info.bits == 24 {
      var k := (info.height - i - 1) * pitch + j * 3;
      var blue, green := DataAt(file, noise, info, k), DataAt(file, noise, info, k + 1);
      var red := DataAt(file, noise, info, k + 2);
      var alpha: Byte := if blue == 8 && green == 0 && red == 0 then 0 else 255;
      p := Pixel(alpha, red, green, blue);
    } else {
      var k := (info.height - i - 1) * pitch + j * 4;
      var blue, green := DataAt(file, noise, info, k), DataAt(file, noise, info, k + 1);
      var red, alpha := DataAt(file, noise, info, k + 2), DataAt(file, noise, info, k + 3);
      p := Pixel(alpha, red, green, blue);
    }
  }

  /** One row of `bmp24_to_argb8888` or `bmp32_to_argb8888`. */
  method FillRow(file: seq<Byte>, noise: Noise, info: Info, out: array<Pixel>, i: nat, index: nat)
    requires info.width > 0 && index + info.width <= out.Length
    modifies out
    ensures out[..index + info.width] == old(out[..index]) + LoadRow(file, noise, info, i, info.width)
  {
    hide LoadPixel;
    for j := 0 to info.width
      invariant out[..index + j] == old(out[..index]) + LoadRow(file, noise, info, i, j)
    {
      ghost var done := out[..index + j];
      var p := ReadPixel(file, noise, info, i, j);
      out[index + j] := p;
      assert out[..index + j + 1] == done + [LoadPixel(file, noise, info, i, j)];
      assert LoadRow(file, noise, info, i, j + 1) ==
             LoadRow(file, noise, info, i, j) + [LoadPixel(file, noise, info, i, j)];
    }
  }

  /** `bmp24_to_argb8888` and `bmp32_to_argb8888`: every pixel, row by row. */
  method FillPixels(file: seq<Byte>, noise: Noise, info: Info, out: array<Pixel>)
    requires info.width > 0 && info.height > 0 && out.Length == info.height * info.width
    modifies out
    ensures out[..] == LoadRows(file, noise, info, info.width, info.height)
  {
    hide LoadRow;
    var index := 0;
    for i := 0 to info.height
      invariant index == i * info.width <= out.Length
      invariant out[..index] == LoadRows(file, noise, info, info.width, i)
    {
      RowEnds(i, info.height, info.width);
      FillRow(file, noise, info, out, i, index);
      index := index + info.width;
    }
    assert out[..index] == out[..];
  }

  /** `load_bmp_form_file`. */
  method LoadBmp(file: seq<Byte>, noise: Noise) returns (r: Option<Image>)
    ensures r == Loaded(file, noise)
  {
    hide LoadRows, Check, WidthBytes;
    var checked := Check(file, noise);
    if checked.None? {
      return None;
    }
    var info := checked.value;
    var dataSize := WidthBytes(info.width * info.bits) * info.height;
    if dataSize <= 0 || info.offset >= |file| {
      return None;
    }
    if info.width > 0 && info.height > 0 {
      CellInside(info.height - 1, info.width - 1, info.width, info.height);
      var out := new Pixel[info.height * info.width](_ => ZERO);
      FillPixels(file, noise, info, out);
      r := Some(Image(info.width, info.height, out[..]));
    } else {
      r := Some(Image(info.width, info.height, Pixels(file, noise, info)));
    }
  }

  lemma {:induction false} LoadRowsAt(file: seq<Byte>, noise: Noise, info: Info, w: nat, k: nat, y: nat, x: nat)
    requires y < k && x < w
    ensures LoadRows(file, noise, info, w, k)[Cell(y, x, w, k)] == LoadPixel(file, noise, info, y, x)
  {
    hide LoadPixel;
    CellInside(y, x, w, k);
    var init, last := LoadRows(file, noise, info, w, k - 1), LoadRow(file, noise, info, k - 1, w);
    if y < k - 1 {
      CellInside(y, x, w, k - 1);
      LoadRowsAt(file, noise, info, w, k - 1, y, x);
      AppendLeft(init, last, Cell(y, x, w, k - 1));
    } else {
      AppendAt(init, last, x);
    }
  }

  // ----- The round trip

  /** The sizes for which no `int` of the writer or the reader overflows. */
  predicate Fits(w: nat, h: nat) {
    w > 0 && h > 0 && HEADER_SIZE + 4 * w * h < 0x8000_0000 && 32 * w + 31 < 0x8000_0000 && h < 0x8000_0000
  }

  lemma Le32Back(v: nat)
    requires v < 0x8000_0000
    ensures v % 256 + 256 * (v / 256 % 256) + 65536 * (v / 65536 % 256 + 256 * (v / 16777216 % 256)) == v
  {
    var a := v / 256;
    var b := a / 256;
    var c := b / 256;
    assert v / 65536 == b;
    assert v / 16777216 == c;
    assert c % 256 == c;
  }

  lemma PartOf<T>(a: seq<T>, f: seq<T>, b: seq<T>)
    ensures (a + f + b)[|a|..|a| + |f|] == f
  {
  }

  lemma InfoFields(w: nat, h: nat)
    ensures var i := InfoHeader(w, h); i[4..8] == Le32(w) && i[8..12] == Le32(h) && i[14] == 32 && i[15] == 0
  {
    var a, b, c, d, e := [40 as Byte, 0, 0, 0], Le32(w), Le32(h), [1 as Byte, 0, 32, 0], seq(24, _ => 0 as Byte);
    var i := InfoHeader(w, h);
    hide Le32;
    assert i == a + b + (c + d + e) == (a + b) + c + (d + e) == (a + b + c) + d + e;
    PartOf(a, b, c + d + e);
    PartOf(a + b, c, d + e);
    PartOf(a + b + c, d, e);
    assert i[12..16] == d;
    assert i[14] == i[12..16][2] && i[15] == i[12..16][3];
  }

  lemma FileFields(w: nat, h: nat)
    ensures var f := FileHeader(w, h); f[0] == 0x42 && f[1] == 0x4D && f[10..14] == Le32(HEADER_SIZE)
  {
    var a, b, c, d := [0x42 as Byte, 0x4D], Le32(HEADER_SIZE + 4 * w * h), [0 as Byte, 0, 0, 0], [54 as Byte, 0, 0, 0];
    assert Le32(HEADER_SIZE) == d;
    hide Le32;
    assert FileHeader(w, h) == a + (b + c + d);
    PartOf(a + b + c, d, []);
    assert a + b + c + d + [] == FileHeader(w, h);
  }

  lemma HeaderFields(w: nat, h: nat)
    ensures var s := Header(w, h);
            && s[0] == 0x42 && s[1] == 0x4D && s[10..14] == Le32(HEADER_SIZE) && s[18..22] == Le32(w)
            && s[22..26] == Le32(h) && s[28] == 32 && s[29] == 0
  {
    var s, f, i := Header(w, h), FileHeader(w, h), InfoHeader(w, h);
    FileFields(w, h);
    InfoFields(w, h);
    hide FileHeader, InfoHeader, Le32;
    assert s[10..14] == f[10..14] && s[18..22] == i[4..8] && s[22..26] == i[8..12];
    assert s[28] == i[14] && s[29] == i[15];
  }

  lemma FieldBack(file: seq<Byte>, noise: Noise, p: nat, v: nat)
    requires p + 4 <= |file| && file[p..p + 4] == Le32(v) && v < 0x8000_0000
    ensures U32(file, noise, p) == v
  {
    var s := file[p..p + 4];
    assert file[p] == s[0] && file[p + 1] == s[1] && file[p + 2] == s[2] && file[p + 3] == s[3];
    Le32Back(v);
  }

  /** The reader finds the writer's header. */
  lemma HeaderBack(file: seq<Byte>, noise: Noise, w: nat, h: nat)
    requires Fits(w, h) && Header(w, h) <= file
    ensures Check(file, noise) == Some(Info(HEADER_SIZE, w, h, 32))
  {
    var s := Header(w, h);
    HeaderFields(w, h);
    FitsBounds(w, h);
    hide Header, Le32, U32, Fits;
    assert file[..54] == s;
    assert file[0] == s[0] && file[1] == s[1] && file[28] == s[28] && file[29] == s[29];
    assert file[10..14] == s[10..14] && file[18..22] == s[18..22] && file[22..26] == s[22..26];
    FieldBack(file, noise, 10, HEADER_SIZE);
    FieldBack(file, noise, 18, w);
    FieldBack(file, noise, 22, h);
  }

  lemma FitsBounds(w: nat, h: nat)
    requires Fits(w, h)
    ensures w < 0x8000_0000 && h < 0x8000_0000
  {
  }

  /** The offset that the reader computes for a 32-bit pixel. */
  lemma OffsetIs(w: nat, y: nat, x: nat)
    ensures WidthBytes(w * 32) == 4 * w
    ensures y * (4 * w) + x * 4 == 4 * (y * w + x)
  {
  }

  lemma ByteBack(px: seq<Pixel>, noise: Noise, w: nat, h: nat, y: nat, x: nat, t: nat)
    requires |px| == h * w && y < h && x < w && t < 4
    ensures DataAt(SavedFile(px, w, h), noise, Info(HEADER_SIZE, w, h, 32), 4 * Cell(h - 1 - y, x, w, h) + t) ==
            px[Cell(y, x, w, h)].At(t)
  {
    var body, q := Flipped(px, w, h, h), Cell(h - 1 - y, x, w, h);
    FlippedAt(px, w, h, h, h - 1 - y, x);
    FlatAt(body, q, t);
    hide Flat, Header, Flipped, Cell;
    var at := 4 * q + t;
    assert at < |Flat(body)|;
    AppendAt(Header(w, h), Flat(body), at);
  }

  lemma PixelBack(px: seq<Pixel>, noise: Noise, w: nat, h: nat, y: nat, x: nat)
    requires |px| == h * w && y < h && x < w
    ensures LoadPixel(SavedFile(px, w, h), noise, Info(HEADER_SIZE, w, h, 32), y, x) ==
            px[Cell(y, x, w, h)].Reverse()
  {
    CellInside(h - 1 - y, x, w, h);
    OffsetIs(w, h - 1 - y, x);
    hide SavedFile, DataAt, WidthBytes, Cell;
    ByteBack(px, noise, w, h, y, x, 0);
    ByteBack(px, noise, w, h, y, x, 1);
    ByteBack(px, noise, w, h, y, x, 2);
    ByteBack(px, noise, w, h, y, x, 3);
  }

  function Reversed(px: seq<Pixel>): (r: seq<Pixel>)
    ensures |r| == |px|
  {
    seq(|px|, i requires 0 <= i < |px| => px[i].Reverse())
  }

  /** Saving a buffer and loading the file gives the same width and height, and every
      pixel at its own place with its four bytes reversed. */
  lemma SaveLoad(px: seq<Pixel>, noise: Noise, w: nat, h: nat)
    requires |px| == h * w && Fits(w, h)
    ensures Loaded(SavedFile(px, w, h), noise) == Some(Image(w, h, Reversed(px)))
  {
    hide LoadPixel, Row, Flipped, Flat, Header;
    var file, info := SavedFile(px, w, h), Info(HEADER_SIZE, w, h, 32);
    HeaderBack(file, noise, w, h);
    DataSize(w, h);
    LoadedPixels(px, noise, w, h);
    assert |file| == HEADER_SIZE + 4 * (h * w);
    hide Check, WidthBytes, LoadRows, SavedFile, Reversed, Fits;
  }

  lemma DataSize(w: nat, h: nat)
    requires w > 0 && h > 0
    ensures WidthBytes(w * 32) * h > 0 && h * w > 0
  {
    OffsetIs(w, 0, 0);
    CellInside(h - 1, w - 1, w, h);
    assert (4 * w) * h == 4 * (h * w);
  }

  lemma LoadedPixels(px: seq<Pixel>, noise: Noise, w: nat, h: nat)
    requires |px| == h * w && w > 0
    ensures LoadRows(SavedFile(px, w, h), noise, Info(HEADER_SIZE, w, h, 32), w, h) == Reversed(px)
  {
    hide SavedFile, LoadRows;
    var rows := LoadRows(SavedFile(px, w, h), noise, Info(HEADER_SIZE, w, h, 32), w, h);
    forall p | 0 <= p < |px| ensures rows[p] == px[p].Reverse() {
      LoadedPixel(px, noise, w, h, p);
    }
  }

  lemma LoadedPixel(px: seq<Pixel>, noise: Noise, w: nat, h: nat, p: nat)
    requires |px| == h * w && w > 0 && p < |px|
    ensures LoadRows(SavedFile(px, w, h), noise, Info(HEADER_SIZE, w, h, 32), w, h)[p] == px[p].Reverse()
  {
    hide SavedFile, LoadRows, LoadPixel, Cell;
    var y, x := p / w, p % w;
    CellOf(p, w, h);
    LoadRowsAt(SavedFile(px, w, h), noise, Info(HEADER_SIZE, w, h, 32), w, h, y, x);
    PixelBack(px, noise, w, h, y, x);
  }

  lemma CellOf(p: nat, w: nat, h: nat)
    requires w > 0 && p < h * w
    ensures p / w < h && p % w < w && p == Cell(p / w, p % w, w, h)
  {
    var q, r := p / w, p % w;
    assert p == q * w + r;
    assert q < h by {
      assert (q - h) * w < 0;
    }
  }

  /** Doing it twice gives the original buffer. */
  lemma SaveLoadTwice(px: seq<Pixel>, noise: Noise, w: nat, h: nat, once: Image)
    requires |px| == h * w && Fits(w, h) && Loaded(SavedFile(px, w, h), noise) == Some(once)
    ensures |once.pixels| == h * w && Loaded(SavedFile(once.pixels, w, h), noise) == Some(Image(w, h, px))
  {
    hide Loaded, SavedFile, Fits;
    SaveLoad(px, noise, w, h);
    SaveLoad(Reversed(px), noise, w, h);
    assert Reversed(Reversed(px)) == px;
  }
}
