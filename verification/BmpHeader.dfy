/** Which files the bitmap loader accepts, and what the writer puts into its headers,
    stated on the bytes of the file. */
module BmpHeader {
  import opened ByteTypes
  import opened Bmp

  // ----- Header fields, least significant byte first

  function Word(file: seq<Byte>, p: nat): int
    requires p + 1 < |file|
  {
    file[p] as int + 256 * file[p + 1] as int
  }

  function Dword(file: seq<Byte>, p: nat): int
    requires p + 3 < |file|
  {
    file[p] as int + 256 * file[p + 1] as int + 65536 * file[p + 2] as int + 16777216 * file[p + 3] as int
  }

  /** A field of 32 bits in two's complement. */
  function Long(file: seq<Byte>, p: nat): int
    requires p + 3 < |file|
  {
    if file[p + 3] < 128 then Dword(file, p) else Dword(file, p) - 4294967296
  }

  lemma FieldsAre(file: seq<Byte>, noise: Noise, p: nat)
    requires p + 3 < |file|
    ensures U16(file, noise, p) == Word(file, p) && U32(file, noise, p) == Dword(file, p)
    ensures S32(file, noise, p) == Long(file, p)
  {
  }

  // ----- Which files are accepted

  /** Positive width and height, or both negative with a row length below zero. */
  predicate SizeAccepted(width: int, height: int, bits: int) {
    (width > 0 && height > 0) || (width < 0 && height < 0 && width * bits <= -32)
  }

  lemma PitchSign(width: int, bits: int)
    requires bits >= 24
    ensures WidthBytes(width * bits) > 0 <==> width > 0
    ensures WidthBytes(width * bits) < 0 <==> width * bits <= -32
  {
    ProductSign(width, bits);
    FloorSign(width * bits);
    hide WidthBytes;
  }

  lemma FloorSign(n: int)
    ensures WidthBytes(n) > 0 <==> n > 0
    ensures WidthBytes(n) < 0 <==> n <= -32
  {
  }

  lemma ProductSign(pitch: int, height: int)
    ensures pitch * height > 0 <==> (pitch > 0 && height > 0) || (pitch < 0 && height < 0)
  {
    if pitch > 0 && height > 0 {
      assert pitch * height >= pitch by {
        assert pitch * (height - 1) >= 0;
      }
    } else if pitch < 0 && height < 0 {
      assert pitch * height >= -pitch by {
        assert (-pitch) * (-height - 1) >= 0;
      }
    } else if pitch > 0 && height < 0 {
      assert pitch * height <= -pitch by {
        assert pitch * (-height - 1) >= 0;
      }
    } else if pitch < 0 && height > 0 {
      assert pitch * height <= pitch by {
        assert (-pitch) * (height - 1) >= 0;
      }
    }
  }

  lemma DataSign(width: int, height: int, bits: int)
    requires bits >= 24
    ensures WidthBytes(width * bits) * height > 0 <==> SizeAccepted(width, height, bits)
  {
    PitchSign(width, bits);
    ProductSign(WidthBytes(width * bits), height);
    hide WidthBytes;
    if width < 0 && width * bits > -32 {
      assert !(width > 0);
    }
    assert width * bits <= -32 ==> width < 0 by {
      if width >= 0 {
        assert width * bits >= 0;
      }
    }
  }

  /** A file with whole headers is loaded if and only if it has the signature BM, at least
      24 bits for each pixel, its data inside the file and not in the headers, and a size
      with a positive amount of data. */
  lemma LoadedIff(file: seq<Byte>, noise: Noise)
    requires |file| >= 54
    ensures Loaded(file, noise).Some? <==>
            && file[0] == 0x42 && file[1] == 0x4D
            && Word(file, 28) >= 24
            && 52 <= Dword(file, 10) < |file|
            && SizeAccepted(Long(file, 18), Long(file, 22), Word(file, 28))
  {
    FieldsAre(file, noise, 0);
    FieldsAre(file, noise, 10);
    FieldsAre(file, noise, 18);
    FieldsAre(file, noise, 22);
    FieldsAre(file, noise, 28);
    if Word(file, 28) >= 24 {
      DataSign(Long(file, 18), Long(file, 22), Word(file, 28));
    }
    hide U16, U32, S32, Dword, Long, WidthBytes, Pixels, SizeAccepted;
  }

  /** And then the image has the width and height of the header. */
  lemma LoadedSize(file: seq<Byte>, noise: Noise)
    requires |file| >= 54 && Loaded(file, noise).Some?
    ensures Loaded(file, noise).value.width == Long(file, 18) && Loaded(file, noise).value.height == Long(file, 22)
  {
    FieldsAre(file, noise, 18);
    FieldsAre(file, noise, 22);
    hide U16, U32, S32, Dword, Long, WidthBytes, Pixels;
  }

  // ----- What the writer puts into the headers

  lemma DwordOf(file: seq<Byte>, p: nat, v: nat)
    requires p + 4 <= |file| && file[p..p + 4] == Le32(v) && v < 0x8000_0000
    ensures Dword(file, p) == v
  {
    FieldBack(file, x => 0, p, v);
    FieldsAre(file, x => 0, p);
  }

  lemma SizeField(w: nat, h: nat)
    ensures FileHeader(w, h)[2..6] == Le32(HEADER_SIZE + 4 * w * h) && FileHeader(w, h)[6..10] == [0, 0, 0, 0]
  {
    var a, b, c, d := [0x42 as Byte, 0x4D], Le32(HEADER_SIZE + 4 * w * h), [0 as Byte, 0, 0, 0], [54 as Byte, 0, 0, 0];
    hide Le32;
    PartOf(a, b, c + d);
    PartOf(a + b, c, d);
    assert FileHeader(w, h) == a + b + (c + d) == (a + b) + c + d;
  }

  lemma InfoRest(w: nat, h: nat)
    ensures InfoHeader(w, h)[0..4] == [40, 0, 0, 0] && InfoHeader(w, h)[12..14] == [1, 0]
    ensures forall i :: 16 <= i < 40 ==> InfoHeader(w, h)[i] == 0
  {
    var a, b, c, d, e := [40 as Byte, 0, 0, 0], Le32(w), Le32(h), [1 as Byte, 0, 32, 0], seq(24, _ => 0 as Byte);
    hide Le32;
    PartOf([], a, b + c + d + e);
    PartOf(a + b + c, d, e);
    var i := InfoHeader(w, h);
    assert i == [] + a + (b + c + d + e) == (a + b + c) + d + e;
    assert i[12..14] == i[12..16][0..2] == [1, 0];
    assert forall k :: 16 <= k < 40 ==> i[k] == e[k - 16];
  }

  /** The headers of a saved file: its own length in the file header, 40 for the length of
      the info header, one plane, and zero everywhere else. */
  lemma SavedHeaders(px: seq<Pixel>, w: nat, h: nat)
    requires |px| == h * w && Fits(w, h)
    ensures var file := SavedFile(px, w, h);
            && |file| >= 54 && Dword(file, 2) == |file|
            && Dword(file, 14) == 40 && Word(file, 26) == 1
            && (forall i :: 6 <= i < 10 ==> file[i] == 0) && forall i :: 30 <= i < 54 ==> file[i] == 0
  {
    var file, f, i := SavedFile(px, w, h), FileHeader(w, h), InfoHeader(w, h);
    SizeField(w, h);
    InfoRest(w, h);
    FortyIs();
    SavedLength(px, w, h);
    hide FileHeader, InfoHeader, Le32, Dword, Fits, Flat, Flipped;
    assert file[..54] == f + i;
    assert file[2..6] == f[2..6] && file[6..10] == f[6..10] && file[14..18] == i[0..4];
    assert file[26] == i[12..14][0] && file[27] == i[12..14][1];
    DwordOf(file, 2, HEADER_SIZE + 4 * w * h);
    DwordOf(file, 14, 40);
    assert forall k :: 6 <= k < 10 ==> file[k] == file[6..10][k - 6];
    assert forall k :: 30 <= k < 54 ==> file[k] == i[k - 14];
  }

  lemma FortyIs()
    ensures Le32(40) == [40, 0, 0, 0]
  {
  }

  lemma SavedLength(px: seq<Pixel>, w: nat, h: nat)
    requires |px| == h * w && Fits(w, h)
    ensures |SavedFile(px, w, h)| == HEADER_SIZE + 4 * w * h < 0x8000_0000
  {
    hide Flat, Header, Flipped;
    assert 4 * (h * w) == 4 * w * h;
  }
}
