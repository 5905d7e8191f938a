/** The pixels of a written and parsed PNG file, byte by byte. */
module PngShown {
  import opened Bits
  import opened ImageRows
  import opened ByteStream
  import opened Wrappers
  import opened PngFilter
  import opened PngWriteLine
  import opened PngReadLine
  import opened PngUnpack
  import opened PngWrite
  import opened PngFile

  /** Only gray and RGB get alpha, and only when it is asked for. */
  lemma OutChannelsIs(n: nat, req: nat)
    requires 1 <= n <= 4 && req <= 4
    ensures OutChannels(n, req) == if (n == 1 && req == 2) || (n == 3 && req == 4) then n + 1 else n
  {
  }

  /** The largest sample becomes 255, in gray images only. */
  lemma ScaleIs(color: nat)
    ensures Scale(1, 0) * 1 == 255 && Scale(2, 0) * 3 == 255 && Scale(4, 0) * 15 == 255
    ensures color != 0 ==> Scale(1, color) == Scale(2, color) == Scale(4, color) == 1
  {
  }

  lemma {:induction false} JoinedAt(img: Image, j: nat, r: nat, k: nat)
    requires img.Inside() && r < j <= img.height && k < img.len
    ensures |Joined(img, j)| == RowOff(img.len, j) && RowOff(img.len, r) + k < |Joined(img, j)|
    ensures Joined(img, j)[RowOff(img.len, r) + k] == img.Row(r)[k]
  {
    JoinedSize(img, j - 1);
    if r < j - 1 {
      JoinedAt(img, j - 1, r, k);
    }
  }

  lemma {:induction false} JoinedSize(img: Image, j: nat)
    requires img.Inside() && j <= img.height
    ensures |Joined(img, j)| == RowOff(img.len, j)
  {
    if j > 0 {
      JoinedSize(img, j - 1);
    }
  }

  /** Channel c of pixel i of the first count pixels, 255 behind the n channels there are. */
  lemma {:induction false} AlphaAt(s: seq<byte>, n: nat, count: nat, i: nat, c: nat)
    requires n > 0 && |s| == RowOff(n, count) && i < count && c <= n
    ensures |AddAlpha(s, n)| == RowOff(n + 1, count) && RowOff(n + 1, i) + c < |AddAlpha(s, n)|
    ensures RowOff(n, i) + n <= |s|
    ensures AddAlpha(s, n)[RowOff(n + 1, i) + c] == if c < n then s[RowOff(n, i) + c] else 255
    decreases count
  {
    var front := s[..RowOff(n, count - 1)];
    AlphaSize(front, n, count - 1);
    RowOffMono(n, i, count);
    RowOffMono(n + 1, i, count);
    if i < count - 1 {
      AlphaAt(front, n, count - 1, i, c);
    }
  }

  lemma {:induction false} AlphaSize(s: seq<byte>, n: nat, count: nat)
    requires n > 0 && |s| == RowOff(n, count)
    ensures |AddAlpha(s, n)| == RowOff(n + 1, count)
    decreases count
  {
    if count > 0 {
      AlphaSize(s[..RowOff(n, count - 1)], n, count - 1);
    }
  }

  /** Where channel c of pixel i of row r stands in an image of x pixels of m bytes to a row. */
  function Offset(x: nat, m: nat, r: nat, i: nat, c: nat): nat { (r * x + i) * m + c }

  /** Where it stands in memory, in rows `stride` bytes apart, the last one first when writing is flipped. */
  function Origin(stride: nat, y: nat, flip: bool, n: nat, r: nat, i: nat, c: nat): nat
    requires r < y
  {
    stride * (if flip then y - 1 - r else r) + i * n + c
  }

  /** What `WritePng` delivers: every channel from its place in memory, with 255 behind them if alpha is added. */
  lemma PixelDelivered(pixels: seq<byte>, stride_bytes: nat, x: nat, y: nat, n: nat, flip: bool, m: nat, r: nat,
                       i: nat, c: nat)
    requires 1 <= n <= 4 && ImageOf(pixels, stride_bytes, x, y, n, flip).Inside()
    requires (m == n || m == n + 1) && r < y && i < x && c < m
    ensures var d := Delivered(Joined(ImageOf(pixels, stride_bytes, x, y, n, flip), y), n, m);
      var from := Origin(if stride_bytes == 0 then x * n else stride_bytes, y, flip, n, r, i, c);
      && |d| == x * y * m && Offset(x, m, r, i, c) < |d| && (c < n ==> from < |pixels|)
      && d[Offset(x, m, r, i, c)] == if c < n then pixels[from] else 255
  {
    hide Joined, AddAlpha, Image.Inside, Origin;
    var d := Joined(ImageOf(pixels, stride_bytes, x, y, n, flip), y);
    if c < n {
      PixelJoined(pixels, stride_bytes, x, y, n, flip, r, i, c);
    }
    PixelJoined(pixels, stride_bytes, x, y, n, flip, r, i, 0);
    if m == n + 1 {
      Offsets(x, n, r, i);
      Offsets(x, m, r, i);
      Area(x, y, n);
      Area(x, y, m);
      PixelInside(x, y, r, i);
      AlphaAt(d, n, x * y, r * x + i, c);
    }
  }

  lemma PixelJoined(pixels: seq<byte>, stride_bytes: nat, x: nat, y: nat, n: nat, flip: bool, r: nat, i: nat, c: nat)
    requires 1 <= n <= 4 && ImageOf(pixels, stride_bytes, x, y, n, flip).Inside() && r < y && i < x && c < n
    ensures var d := Joined(ImageOf(pixels, stride_bytes, x, y, n, flip), y);
      var from := Origin(if stride_bytes == 0 then x * n else stride_bytes, y, flip, n, r, i, c);
      && |d| == x * y * n && Offset(x, n, r, i, c) < |d| && from < |pixels| && d[Offset(x, n, r, i, c)] == pixels[from]
  {
    hide Joined, Image.Inside;
    var img := ImageOf(pixels, stride_bytes, x, y, n, flip);
    Offsets(x, n, r, i);
    Area(x, y, n);
    JoinedSize(img, y);
    InRow(x, n, i, c);
    JoinedAt(img, y, r, i * n + c);
    RowIs(img, r, i * n + c);
  }

  lemma InRow(x: nat, n: nat, i: nat, c: nat)
    requires i < x && c < n
    ensures i * n + c < x * n
  {
    RowOffMono(n, i, x);
    RowOffIs(n, i);
    RowOffIs(n, x);
  }

  lemma RowIs(img: Image, r: nat, k: nat)
    requires img.Inside() && r < img.height && k < img.len
    ensures img.Start(r) + k < |img.pixels| && img.Row(r)[k] == img.pixels[img.Start(r) + k]
  {
  }

  /** Offsets of a pixel, as products. */
  lemma Offsets(x: nat, n: nat, r: nat, i: nat)
    ensures RowOff(x * n, r) + i * n == RowOff(n, r * x + i) == (r * x + i) * n
  {
    RowOffIs(x * n, r);
    RowOffIs(n, r * x + i);
    Distribute(r * x, i, n);
    MulAssoc(r, x, n);
    Commute(x * n, r);
    Commute(n, r * x + i);
  }

  lemma Distribute(a: nat, b: nat, n: nat)
    ensures (a + b) * n == a * n + b * n
  {
  }

  lemma Commute(a: nat, b: nat)
    ensures a * b == b * a
  {
  }

  lemma Area(x: nat, y: nat, n: nat)
    ensures RowOff(x * n, y) == RowOff(n, x * y) == x * y * n
  {
    RowOffIs(x * n, y);
    RowOffIs(n, x * y);
    MulAssoc(x, n, y);
    MulAssoc(x, y, n);
    Commute(n, y);
    Commute(n, x * y);
  }

  lemma PixelInside(x: nat, y: nat, r: nat, i: nat)
    requires r < y && i < x
    ensures r * x + i < x * y
  {
    RowOffMono(x, r, y);
    RowOffIs(x, r);
    RowOffIs(x, y);
    Commute(x, r);
  }
}
