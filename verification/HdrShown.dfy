/** Radiance files by packet, and where the reader falls back to flat pixels. */
module HdrShown {
  import opened Bits
  import opened ByteStream
  import opened ImageRows
  import opened HdrWrite
  import opened HdrRead

  /** A dump is its length and its bytes; a run its length and 128, and the byte. */
  lemma PacketIs(p: Packet)
    requires p.Valid()
    ensures p.Dump? ==> p.Bytes() == [|p.data|] + p.data && p.Meaning() == p.data
    ensures p.Run? ==> p.Bytes() == [128 + p.len, p.value] && |p.Meaning()| == p.len
    ensures p.Run? ==> forall i :: 0 <= i < p.len ==> p.Meaning()[i] == p.value
  {
  }

  /** Neither the mark 2, 2 and a width below 32768. */
  predicate Unmarked(t: seq<byte>) { |t| >= 4 && (t[0] != 2 || t[1] != 2 || t[2] >= 128) }

  /**
    Behind any number of good scanlines, one without the mark starts the image over: its bytes and
    all that follow are the pixels, whatever was read before.  A mark with another width is an error.
  */
  lemma {:induction false} RowsThenFlat(s: seq<byte>, pos: nat, px: seq<byte>, w: nat, h: nat, rows: seq<seq<byte>>,
                                        j: nat, out: seq<byte>, flat: seq<byte>)
    requires RunLength(w) && |px| == RowOff(4 * w, h) && j <= |rows| < h && Coded(px, w, h, false, rows)
    requires At(s, pos, Concat(rows[j..]) + flat)
    ensures Unmarked(flat) && |flat| == RowOff(4 * w, h) ==> Scanlines(s, pos, w, h, j, out) == Loaded(flat)
    ensures |flat| >= 4 && !Unmarked(flat) && 256 * flat[2] as int + flat[3] as int != w ==>
      Scanlines(s, pos, w, h, j, out) == Bad
    decreases h - j
  {
    hide At, Encodes, Scanline, RowToWrite, FlatPixels, Get8, Read;
    if j < |rows| {
      var row := RowToWrite(px, w, h, false, j);
      var ps :| Encodes(row, w, rows[j], ps);
      assert rows[j..][1..] == rows[j + 1..];
      assert Concat(rows[j..]) + flat == rows[j] + (Concat(rows[j + 1..]) + flat);
      AtSplit(s, pos, rows[j], Concat(rows[j + 1..]) + flat);
      ScanlineReads(s, pos, row, w, rows[j], ps);
      RowsThenFlat(s, pos + |rows[j]|, px, w, h, rows, j + 1, out + row, flat);
    } else {
      assert rows[j..] == [] && [] + flat == flat;
      if |flat| >= 4 {
        Get8At(s, pos, flat, 0);
        Get8At(s, pos, flat, 1);
        Get8At(s, pos, flat, 2);
        Get8At(s, pos, flat, 3);
      }
      FlatRead(s, pos, flat, w, h);
    }
  }

  lemma FlatRead(s: seq<byte>, pos: nat, flat: seq<byte>, w: nat, h: nat)
    requires At(s, pos, flat)
    ensures |flat| == RowOff(4 * w, h) ==> FlatPixels(s, pos, w, h) == Loaded(flat)
  {
    ReadAt(s, pos, flat);
  }

  /** Images narrower than 8 or wider than 32767 pixels are flat from the first byte on. */
  lemma FlatWidths(s: seq<byte>, pos: nat, w: nat, h: nat, flat: seq<byte>)
    requires (w < 8 || w > 32767) && At(s, pos, flat) && |flat| == RowOff(4 * w, h)
    ensures LoadPixels(s, pos, w, h) == Loaded(flat)
  {
    hide FlatPixels, At;
    FlatRead(s, pos, flat, w, h);
  }
}
