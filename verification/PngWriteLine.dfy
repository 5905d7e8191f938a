/** The writer's filtered lines: stbiw__encode_png_line over an image with any stride. */
module PngWriteLine {
  import opened Bits
  import opened PngFilter

  /** An image in memory: rows of `len` used bytes, `stride` bytes apart, top row first unless flipped. */
  datatype Image = Image(pixels: seq<byte>, stride: nat, height: nat, len: nat, flip: bool)
  {
    function Start(y: nat): nat
      requires y < height
    {
      stride * if flip then height - 1 - y else y
    }

    ghost predicate Inside()
    {
      forall y :: 0 <= y < height ==> Start(y) + len <= |pixels|
    }

    function Row(y: nat): (r: seq<byte>)
      requires y < height && Start(y) + len <= |pixels|
      ensures |r| == len
    {
      pixels[Start(y)..Start(y) + len]
    }

    /** The row above, zeros for the first one. */
    function Above(y: nat): (r: seq<byte>)
      requires y < height && (y > 0 ==> Start(y - 1) + len <= |pixels|)
      ensures |r| == len
    {
      if y == 0 then Zeros(len) else Row(y - 1)
    }

    lemma StartAbove(y: nat)
      requires 0 < y < height
      ensures Start(y - 1) == if flip then Start(y) + stride else Start(y) - stride
    {
    }
  }

  /** One byte of a line, computed by the case the writer switches on. */
  lemma EncodedByte(img: Image, y: nat, f: nat, bpp: nat, i: nat, a: byte, b: byte, c: byte)
    requires img.Inside() && y < img.height && f <= 4 && bpp > 0 && i < img.len
    requires a == Left(img.Row(y), i, bpp)
    requires var k := if y == 0 then FirstRowCase(f) else f;
      ReadsPrior(k) ==> y > 0 && b == img.Above(y)[i] && c == Left(img.Above(y), i, bpp)
    ensures var k := if y == 0 then FirstRowCase(f) else f;
      (img.Row(y)[i] - Predict7(k, a, b, c)) % 256 == FilterByte(f, img.Row(y), img.Above(y), bpp, i)
  {
    if y == 0 {
      FirstRowIsZeroPrior(f, a);
      PriorUnread(FirstRowCase(f), a, b, c);
    } else {
      PriorUnread'(f, a, b, c, img.Above(y)[i], Left(img.Above(y), i, bpp));
    }
  }

  lemma PriorUnread'(f: nat, a: byte, b: byte, c: byte, b': byte, c': byte)
    requires f <= 4 && (ReadsPrior(f) ==> b == b' && c == c')
    ensures Predict7(f, a, b, c) == Predict(f, a, b', c')
  {
  }

  /** The first i bytes of a line are filtered. */
  ghost predicate Encoded(img: Image, y: nat, f: nat, n: nat, line: seq<byte>, i: nat)
    requires img.Inside() && y < img.height && 0 < n && f <= 4
  {
    && |line| == img.len && i <= img.len
    && forall k :: 0 <= k < i ==> line[k] == FilterByte(f, img.Row(y), img.Above(y), n, k)
  }

  /** Where the row above starts, for the cases that read it. */
  predicate PriorAt(img: Image, y: nat, kind: nat, zp: nat)
    requires y < img.height
  {
    ReadsPrior(kind) ==> y > 0 && zp == img.Start(y - 1)
  }

  lemma PixelAt(img: Image, y: nat, i: nat)
    requires img.Inside() && y < img.height && i < img.len
    ensures img.Start(y) + img.len <= |img.pixels| && img.pixels[img.Start(y) + i] == img.Row(y)[i]
  {
    hide Image.Start;
  }

  /** A byte of the first pixel, which has no left neighbour. */
  method EncodeFirstByte(img: Image, y: nat, n: nat, f: nat, kind: nat, z: nat, zp: nat, i: nat) returns (v: byte)
    requires img.Inside() && y < img.height && i < n <= img.len && f <= 4
    requires kind == (if y == 0 then FirstRowCase(f) else f) && z == img.Start(y) && PriorAt(img, y, kind, zp)
    ensures v == FilterByte(f, img.Row(y), img.Above(y), n, i)
  {
    hide Predict, Predict7, FilterByte, FirstRowCase, Image.Start, Image.Inside, Image.Row, ReadsPrior;
    PixelAt(img, y, i);
    if ReadsPrior(kind) { PixelAt(img, y - 1, i); }
    var b := if ReadsPrior(kind) then img.pixels[zp + i] else 0;
    EncodedByte(img, y, f, n, i, 0, b, 0);
    v := (img.pixels[z + i] - Predict7(kind, 0, b, 0)) % 256;
  }

  method EncodeFirst(img: Image, y: nat, n: nat, f: nat, kind: nat, z: nat, zp: nat, line: array<byte>)
    requires img.Inside() && y < img.height && 0 < n <= img.len == line.Length && f <= 4
    requires kind == (if y == 0 then FirstRowCase(f) else f) && z == img.Start(y) && PriorAt(img, y, kind, zp)
    modifies line
    ensures Encoded(img, y, f, n, line[..], n)
  {
    hide Predict, Predict7, FilterByte, PriorAt, Image.Row, Image.Above, Image.Inside, Image.Start, FirstRowCase;
    for i := 0 to n
      invariant Encoded(img, y, f, n, line[..], i)
    {
      var v := EncodeFirstByte(img, y, n, f, kind, z, zp, i);
      line[i] := v;
    }
  }

  /** A byte with a left neighbour. */
  method EncodeByte(img: Image, y: nat, n: nat, f: nat, kind: nat, z: nat, zp: nat, i: nat) returns (v: byte)
    requires img.Inside() && y < img.height && 0 < n <= i < img.len && f <= 4
    requires kind == (if y == 0 then FirstRowCase(f) else f) && z == img.Start(y) && PriorAt(img, y, kind, zp)
    ensures v == FilterByte(f, img.Row(y), img.Above(y), n, i)
  {
    hide Predict, Predict7, FilterByte, FirstRowCase, Image.Start, Image.Inside, Image.Row, ReadsPrior;
    PixelAt(img, y, i);
    PixelAt(img, y, i - n);
    if ReadsPrior(kind) {
      PixelAt(img, y - 1, i);
      PixelAt(img, y - 1, i - n);
    }
    var a := img.pixels[z + i - n];
    var b := if ReadsPrior(kind) then img.pixels[zp + i] else 0;
    var c := if ReadsPrior(kind) then img.pixels[zp + i - n] else 0;
    EncodedByte(img, y, f, n, i, a, b, c);
    v := (img.pixels[z + i] - Predict7(kind, a, b, c)) % 256;
  }

  method EncodeRest(img: Image, y: nat, n: nat, f: nat, kind: nat, z: nat, zp: nat, line: array<byte>)
    requires img.Inside() && y < img.height && 0 < n <= img.len == line.Length && f <= 4
    requires kind == (if y == 0 then FirstRowCase(f) else f) && z == img.Start(y) && PriorAt(img, y, kind, zp)
    requires Encoded(img, y, f, n, line[..], n)
    modifies line
    ensures Encoded(img, y, f, n, line[..], img.len)
  {
    hide Predict, Predict7, FilterByte, PriorAt, Image.Row, Image.Above, Image.Inside, Image.Start, FirstRowCase;
    for i := n to img.len
      invariant Encoded(img, y, f, n, line[..], i)
    {
      var v := EncodeByte(img, y, n, f, kind, z, zp, i);
      line[i] := v;
    }
  }

  /**
    stbiw__encode_png_line for n bytes per pixel.  The cases read the row above only for
    filters 2 to 4; the first row is mapped to cases that never do.
  */
  method EncodeLine(img: Image, y: nat, n: nat, filter_type: nat, line: array<byte>)
    requires img.Inside() && y < img.height && 0 < n <= img.len && filter_type <= 4
    requires line.Length == img.len
    modifies line
    ensures line[..] == FilterRow(filter_type, img.Row(y), img.Above(y), n)
  {
    hide Predict, Predict7, FilterByte;
    var kind := if y != 0 then filter_type else FirstRowCase(filter_type);
    var z := img.Start(y);
    if kind == 0 {
      forall i | 0 <= i < img.len {
        line[i] := img.pixels[z + i];
      }
      NoneIsCopy(img, y, filter_type, n);
      assert line[..] == img.Row(y);
      return;
    }
    if y > 0 { img.StartAbove(y); }
    NoPriorFirst(filter_type);
    var zp := if ReadsPrior(kind) then (if img.flip then z + img.stride else z - img.stride) else z;
    EncodeFirst(img, y, n, filter_type, kind, z, zp, line);
    EncodeRest(img, y, n, filter_type, kind, z, zp, line);
  }

  lemma NoPriorFirst(f: nat)
    requires f <= 4
    ensures !ReadsPrior(FirstRowCase(f))
  {
  }

  lemma NoneIsCopy(img: Image, y: nat, f: nat, n: nat)
    requires img.Inside() && y < img.height && f <= 4 && n > 0
    requires (if y != 0 then f else FirstRowCase(f)) == 0
    ensures FilterRow(f, img.Row(y), img.Above(y), n) == img.Row(y)
  {
    forall i | 0 <= i < img.len
      ensures FilterByte(f, img.Row(y), img.Above(y), n, i) == img.Row(y)[i]
    {
    }
  }
}
