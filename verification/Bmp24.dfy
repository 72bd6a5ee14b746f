/** Reading 24-bit bitmaps. The application writes 32-bit files only, so the file is
    described here on its own: padded rows, bottom up, three bytes for each pixel. */
module Bmp24 {
  import opened Options
  import opened ByteTypes
  import opened Bmp

  /** The bytes that fill a row up to whole 32-bit words. */
  function PadLength(w: nat): nat {
    (4 - 3 * w % 4) % 4
  }

  function RowLength(w: nat): nat {
    3 * w + PadLength(w)
  }

  /** A pixel is stored as blue, green, red. */
  function Stored(p: Pixel, t: int): Byte {
    if t == 0 then p.b3 else if t == 1 then p.b2 else p.b1
  }

  function RowBytes(row: seq<Pixel>): (s: seq<Byte>)
    ensures |s| == 3 * |row|
  {
    seq(3 * |row|, i requires 0 <= i < 3 * |row| => Stored(row[i / 3], i % 3))
  }

  /** One padding for each row, with any content. */
  predicate Pads(pads: seq<seq<Byte>>, w: nat, h: nat) {
    |pads| == h && forall i :: 0 <= i < h ==> |pads[i]| == PadLength(w)
  }

  /** Row `y` from the bottom, with its padding. */
  function Line(px: seq<Pixel>, w: nat, h: nat, pads: seq<seq<Byte>>, y: nat): (s: seq<Byte>)
    requires |px| == h * w && Pads(pads, w, h) && y < h
    ensures |s| == RowLength(w)
  {
    RowBytes(Row(px, w, h, h - 1 - y)) + pads[y]
  }

  /** The `k` lowest rows, bottom up. */
  function Data(px: seq<Pixel>, w: nat, h: nat, pads: seq<seq<Byte>>, k: nat): (s: seq<Byte>)
    requires |px| == h * w && Pads(pads, w, h) && k <= h
    ensures |s| == k * RowLength(w)
  {
    if k == 0 then [] else Data(px, w, h, pads, k - 1) + Line(px, w, h, pads, k - 1)
  }

  /** What the loader makes of a stored pixel: opaque, unless it has the key colour. */
  function Shown(p: Pixel): Pixel {
    p.(b0 := if p.b1 == 0 && p.b2 == 0 && p.b3 == 8 then 0 else 255)
  }

  function AllShown(px: seq<Pixel>): (r: seq<Pixel>)
    ensures |r| == |px|
  {
    seq(|px|, i requires 0 <= i < |px| => Shown(px[i]))
  }

  lemma DivMod(n: nat, d: nat, q: nat, r: nat)
    requires (d == 4 || d == 32) && n == d * q + r && r < d
    ensures n / d == q && n % d == r
  {
  }

  /** The length of a row that the loader computes is that of a padded row. */
  lemma PitchIs(w: nat)
    ensures WidthBytes(w * 24) == RowLength(w)
  {
    var q, r := w / 4, w % 4;
    DivMod(w * 24 + 31, 32, 3 * q + r, 31 - 8 * r);
    match r {
      case 0 => DivMod(3 * w, 4, 3 * q, 0);
      case 1 => DivMod(3 * w, 4, 3 * q, 3);
      case 2 => DivMod(3 * w, 4, 3 * q + 1, 2);
      case 3 => DivMod(3 * w, 4, 3 * q + 2, 1);
    }
  }

  lemma RowByteAt(row: seq<Pixel>, pad: seq<Byte>, x: nat, t: nat)
    requires x < |row| && t < 3
    ensures (RowBytes(row) + pad)[3 * x + t] == Stored(row[x], t)
  {
    assert (3 * x + t) / 3 == x && (3 * x + t) % 3 == t;
  }

  lemma InRow(x: nat, t: nat, w: nat)
    requires x < w && t < 3
    ensures 3 * x + t < RowLength(w)
  {
  }

  lemma LineByteAt(px: seq<Pixel>, w: nat, h: nat, pads: seq<seq<Byte>>, y: nat, x: nat, t: nat)
    requires |px| == h * w && Pads(pads, w, h) && y < h && x < w && t < 3
    ensures Line(px, w, h, pads, y)[3 * x + t] == Stored(px[Cell(h - 1 - y, x, w, h)], t)
  {
    RowByteAt(Row(px, w, h, h - 1 - y), pads[y], x, t);
    RowAt(px, w, h, h - 1 - y, x);
    hide RowBytes, Row, Cell, Stored;
  }

  lemma DataStep(px: seq<Pixel>, w: nat, h: nat, pads: seq<seq<Byte>>, k: nat)
    requires |px| == h * w && Pads(pads, w, h) && 0 < k <= h
    ensures Data(px, w, h, pads, k) == Data(px, w, h, pads, k - 1) + Line(px, w, h, pads, k - 1)
  {
  }

  /** Where each byte of each pixel is in the data. */
  lemma {:induction false} DataByteAt(px: seq<Pixel>, w: nat, h: nat, pads: seq<seq<Byte>>, k: nat, y: nat, x: nat,
                                      t: nat)
    requires |px| == h * w && Pads(pads, w, h) && y < k <= h && x < w && t < 3
    ensures Data(px, w, h, pads, k)[Cell(y, 3 * x + t, RowLength(w), k)] == Stored(px[Cell(h - 1 - y, x, w, h)], t)
  {
    hide *;
    var at := 3 * x + t;
    InRow(x, t, w);
    LineByteAt(px, w, h, pads, y, x, t);
    DataStep(px, w, h, pads, k);
    StackAt(Data(px, w, h, pads, k - 1), Line(px, w, h, pads, k - 1), y, at, RowLength(w), k);
    if y < k - 1 {
      DataByteAt(px, w, h, pads, k - 1, y, x, t);
    }
  }

  /** The file has this size and depth in its header, and these pixels from the data
      offset on. */
  ghost predicate Holds24(file: seq<Byte>, noise: Noise, offset: nat, px: seq<Pixel>, w: nat, h: nat,
                          pads: seq<seq<Byte>>)
    requires |px| == h * w && Pads(pads, w, h)
  {
    && Check(file, noise) == Some(Info(offset, w, h, 24))
    && Data(px, w, h, pads, h) <= file[Min(offset, |file|)..]
  }

  function Min(a: nat, b: nat): nat {
    if a < b then a else b
  }

  lemma ByteInFile(file: seq<Byte>, noise: Noise, offset: nat, data: seq<Byte>, info: Info, q: nat)
    requires data <= file[Min(offset, |file|)..] && q < |data| && info.offset == offset
    ensures DataAt(file, noise, info, q) == data[q]
  {
    assert file[Min(offset, |file|)..][q] == data[q];
  }

  lemma PixelShown(file: seq<Byte>, noise: Noise, offset: nat, px: seq<Pixel>, w: nat, h: nat, pads: seq<seq<Byte>>,
                   y: nat, x: nat)
    requires |px| == h * w && Pads(pads, w, h) && Holds24(file, noise, offset, px, w, h, pads) && y < h && x < w
    ensures LoadPixel(file, noise, Info(offset, w, h, 24), y, x) == Shown(px[Cell(y, x, w, h)])
  {
    var info, data := Info(offset, w, h, 24), Data(px, w, h, pads, h);
    var pitch := RowLength(w);
    PitchIs(w);
    CellInside(h - 1 - y, 3 * x, pitch, h);
    CellInside(h - 1 - y, 3 * x + 1, pitch, h);
    CellInside(h - 1 - y, 3 * x + 2, pitch, h);
    hide Data, DataAt, WidthBytes, Cell, RowLength, Pads, Check;
    DataByteAt(px, w, h, pads, h, h - 1 - y, x, 0);
    DataByteAt(px, w, h, pads, h, h - 1 - y, x, 1);
    DataByteAt(px, w, h, pads, h, h - 1 - y, x, 2);
    ByteInFile(file, noise, offset, data, info, Cell(h - 1 - y, 3 * x, pitch, h));
    ByteInFile(file, noise, offset, data, info, Cell(h - 1 - y, 3 * x + 1, pitch, h));
    ByteInFile(file, noise, offset, data, info, Cell(h - 1 - y, 3 * x + 2, pitch, h));
  }

  lemma PixelsShown(file: seq<Byte>, noise: Noise, offset: nat, px: seq<Pixel>, w: nat, h: nat, pads: seq<seq<Byte>>)
    requires |px| == h * w && w > 0 && Pads(pads, w, h) && Holds24(file, noise, offset, px, w, h, pads)
    ensures LoadRows(file, noise, Info(offset, w, h, 24), w, h) == AllShown(px)
  {
    hide LoadRows, Holds24, LoadPixel, Pads, Cell, Shown;
    var info := Info(offset, w, h, 24);
    var rows := LoadRows(file, noise, info, w, h);
    forall p | 0 <= p < |px| ensures rows[p] == Shown(px[p]) {
      CellOf(p, w, h);
      LoadRowsAt(file, noise, info, w, h, p / w, p % w);
      PixelShown(file, noise, offset, px, w, h, pads, p / w, p % w);
    }
  }

  /** Loading a 24-bit file gives its width and height and every pixel at its own place,
      opaque or, in the key colour, transparent; the content of the padding does not
      matter. */
  lemma Load24(file: seq<Byte>, noise: Noise, offset: nat, px: seq<Pixel>, w: nat, h: nat, pads: seq<seq<Byte>>)
    requires |px| == h * w && w > 0 && h > 0 && Pads(pads, w, h)
    requires Holds24(file, noise, offset, px, w, h, pads)
    ensures Loaded(file, noise) == Some(Image(w, h, AllShown(px)))
  {
    PixelsShown(file, noise, offset, px, w, h, pads);
    PitchIs(w);
    CellInside(h - 1, 0, RowLength(w), h);
    assert |Data(px, w, h, pads, h)| > 0;
    hide LoadRows, AllShown, WidthBytes, Check, Data, RowLength, Cell;
  }
}
