/** The inflater undoes the compressor. */
module ZlibRoundTrip {
  import opened Bits
  import opened Wrappers
  import opened InflateSpec
  import opened InflateBlocks
  import opened Inflater
  import opened Deflater

  /** Every byte string, at every quality and for every initial buffer size, comes back as it was. */
  method RoundTrip(data: seq<byte>, quality: int, initial_size: nat) returns (r: Option<seq<byte>>)
    requires initial_size > 0
    ensures r == Some(data)
  {
    hide Inflate, AdlerBytes;
    var z := Compress(data, quality);
    r := DecodeMalloc(z, initial_size, true);
  }

  /** What is read of any stream of stored, fixed and dynamic blocks is what the blocks stand for. */
  method ReadStream(data: seq<byte>, initial_size: nat, ghost cmf: byte, ghost flg: byte, ghost ps: seq<Piece>)
    returns (r: Option<seq<byte>>)
    requires initial_size > 0
    requires cmf % 16 == 8 && flg / 32 % 2 == 0 && (cmf * 256 + flg) % 31 == 0
    requires ps != [] && ValidPieces(ps, 16, []) && At(Unpack(data), 0, StreamBits(cmf, flg, ps))
    ensures r == Some(Output(ps, 16, []))
  {
    hide Inflate, At, ValidPieces, StreamBits;
    StreamRead(data, cmf, flg, ps);
    r := DecodeMalloc(data, initial_size, true);
  }
}
