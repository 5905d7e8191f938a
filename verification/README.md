# Proofs about the codecs, the digest and the INI parser of this repository

This project models the algorithmic core of the vendored `stb_image.h`,
`stb_image_write.h` and `ini.c` and of the sample `md5sum.c`, and proves what they are
for: that readers undo writers, that fast forms agree with simple ones, that state machines
keep their invariants over every run.

* **zlib** (`Bits`, `BitReversal`, `Huffman`, `ZHuffman`, `BitReader`, `InflateSpec`,
  `InflateEnd`, `InflateSpin`, `InflateRoom`, `Inflate`, `DeflateSpec`, `InflateDynamic`,
  `InflateBlocks`, `Adler`, `Deflate`, `ZlibRoundTrip`): the inflater as a reader of a plain bit
  sequence, streams as the RFCs have them written, the compressor as a writer of tokens, and their
  composition.
* **PNG** (`PngFilter` ... `PngFile`, `PngChunks`, `PngShown`, `PngPack`, `Adam7`, `Adam7RoundTrip`):
  row filters, in-place expansion of small samples, fused alpha, interlacing, and whole files.
* **TGA** and **Radiance HDR** (`TgaPackets`, `TgaRead`, `TgaFile`, `TgaShown`, `HdrWrite`, `HdrRead`,
  `HdrShown`): run-length packets and the readers' state machines.
* **JPEG entropy layer** (`JpegHuffman` ... `JpegStandard`, `JpegKnown`): Huffman tables, byte stuffing, zero runs
  and signed values, from coefficients to coefficients.
* **GIF** (`GifCells`, `GifPaint`, `GifLzw`, `GifDeferred`, `GifRaster`, `GifEncode`): the LZW dictionary,
  its limits, the encoder it undoes, and the pixel cursor.
* **MD5** (`Md5Spec`, `Md5Words`, `Md5Block`, `Md5`, `Md5Digits`, `Md5Known`): streaming, 64-bit
  registers used as 32-bit words, and two known digests.
* **INI** (`IniText`, `IniParse`, `IniPrint`): the chunked line reader and the in-place line parser.

Words are natural numbers with their own recursive shifts and bitwise operators; C integer
widths appear as explicit remainders. Code that updates state is a method or a class, proved
against a function of its input; the lemmas are about those functions.

Where the code turned out to differ from what one would expect:

* A TGA of sixteen-bit sides can still be too large for the reader: the round trip holds
  exactly when neither side is 0 and width x height x channels fits an `int`
  (`TgaFile.WriteTga`), and 65535 x 32769 grey pixels fail (`TgaFile.TooLarge`). The raw-packet
  scan compares pixels two apart, so a row of two pixels by turns gets a header for every
  pixel but the last, which is the most a row can cost (`TgaPackets.WriteRow`).
* The GIF decoder compares a code with the entry count after advancing it, so its special
  case for the entry being created is never taken; the ordinary case is right because the
  entry's first symbol is already stored (`GifRaster.Gif.AddEntry`).
* The GIF decoder enters up to 8192 strings where the format freezes the table at 4096; it
  agrees with that format on every frame whose full tables miss no more than 4096 strings
  before they are cleared, and refuses every other (`GifDeferred.FrameAgrees`); a clear code and
  zeros enough it does refuse (`GifDeferred.ZeroBytesRefused`). Its test for wider codes needs
  roots of at least one bit (`GifLzw.GrowsWhenFull`, `GifLzw.NoRootBits`).
* The HDR reader spins exactly when the packets whose header lies inside the input cover
  fewer bytes than the component has (`HdrRead.EndlessIff`, `HdrRead.SpinsIff`): past the end
  every packet is empty. An input cut inside a packet that covers the component reads on with
  zeros (`HdrRead.ShortInputs`).
* A compressed block whose input ends before its end symbol decodes zero bits; unless they end
  the block, form an error or fill a fixed buffer, the loop has no end but running out of memory
  (`InflateEnd.UndefinedIff`, `InflateEnd.SpinsForEver`). Thirteen bytes do it
  (`InflateSpin.SpinIsEndless`).
* A PNG within the reader's limits can still be refused when alpha is asked for: exactly a gray
  one of 2^30 pixels (`PngFile.AlphaTooLarge`, `PngFile.SquareTooLarge`).
* The INI parser cuts section and remembered names at 49 characters, so that a continued value of
  a longer name is reported under the shorter one (`IniPrint.PrintParse`), and lines at 199; the
  round trip is stated for lines within that limit.

To verify the whole project, run `dafny verify dfyconfig.toml` in this directory.

## Model

| member | source | states |
|---|---|---|
| `BitReversal.BitReverse` | v2/3rdparty/stb/stb_image.h:3952-3967 | the mask-and-swap reversal gives the low bits of every word in the opposite order, for every width up to 16 |
| `Canonical.FitsIffKraft` | v2/3rdparty/stb/stb_image.h:3980-3994 | the per-length overflow tests accept a list of code lengths exactly when its Kraft sum is at most one |
| `Canonical.PrefixFree` | v2/3rdparty/stb/stb_image.h:3983-3994 | no two codes of an accepted list can begin the same stream (RFC 1951 section 3.2.2) |
| `Canonical.DecodeFinds` | v2/3rdparty/stb/stb_image.h:4061-4091 | plain decoding returns a symbol exactly when the code of some symbol comes next |
| `ZHuffmanTables.FastHitIsMatch` | v2/3rdparty/stb/stb_image.h:4003-4008 | an entry of the nine-bit table is hit exactly on the streams that begin with that symbol's code |
| `ZHuffmanTables.ZHuffman.Build` | v2/3rdparty/stb/stb_image.h:3969-4014 | the tables are accepted exactly under the Kraft inequality, and then describe the canonical code of the list |
| `ZReader.FastMissIff` | v2/3rdparty/stb/stb_image.h:4079-4091 | an empty nine-bit entry means exactly that the next sixteen bits lie at or above maxcode[9] |
| `ZReader.SlowFound` | v2/3rdparty/stb/stb_image.h:4061-4077 | the first length whose maxcode exceeds the word is the length of the code, and the slot found holds its symbol |
| `ZReader.BitReader.WordWidth` | v2/3rdparty/stb/stb_image.h:4042-4049 | code_buffer stays below 2^num_bits and within 32 bits in every valid reader state |
| `ZReader.BitReader.Receive` | v2/3rdparty/stb/stb_image.h:4051-4059 | a field is the next n bits of the plain bit sequence, however far the buffer has prefetched; zeros follow the end |
| `ZReader.BitReader.HuffmanDecode` | v2/3rdparty/stb/stb_image.h:4061-4091 | fast table and slow path together are the plain canonical decoder: same symbol, same bits consumed, -1 when no code matches |
| `InflateSpec.LengthBaseTable` | v2/3rdparty/stb/stb_image.h:4112-4118 | the length base table is the one RFC 1951 section 3.2.5 derives from the extra bits |
| `InflateSpec.DistBaseTable` | v2/3rdparty/stb/stb_image.h:4120-4124 | the same for the distance bases |
| `InflateSpec.LengthExtraTable` | v2/3rdparty/stb/stb_image.h:4117-4118 | the extra bits of the length symbols, by formula, are those of the table |
| `InflateSpec.DistExtraTable` | v2/3rdparty/stb/stb_image.h:4123-4124 | the same for the distance symbols |
| `InflateDynamic.CodeLengthPlaces` | v2/3rdparty/stb/stb_image.h:4168-4188 | the nineteen lengths of the code length code, each at its literal place among the fields of three bits, absent ones 0 |
| `InflateDynamic.HeaderRead` | v2/3rdparty/stb/stb_image.h:4168-4215 | a dynamic header written as RFC 1951 section 3.2.7 says, for any two accepted codes, any runs of symbols 0 to 18 that spell them and any accepted code for those symbols, is read as just these two lists |
| `InflateBlocks.ZlibHeaderIs` | v2/3rdparty/stb/stb_image.h:4246-4256 | the masks and the remainder accept exactly deflate streams without a dictionary whose two bytes are a multiple of 31 |
| `InflateBlocks.StreamRead` | v2/3rdparty/stb/stb_image.h:4288-4314 | a stream of any number of stored, fixed and dynamic blocks, written field by field as the RFCs say, means the bytes its blocks stand for, whatever follows it |
| `InflateRoom.InflateFitted` | v2/3rdparty/stb/stb_image.h:4093-4110 | a stream with a meaning has the same in a buffer of fixed size, and is refused exactly when its output is longer |
| `InflateEnd.UndefinedIff` | v2/3rdparty/stb/stb_image.h:4126-4166 | a compressed block has no meaning exactly when after some number of symbols it comes to a reserved distance symbol, or to zero bits behind the input that neither end it nor fill a fixed buffer |
| `InflateEnd.SpinsForEver` | v2/3rdparty/stb/stb_image.h:4126-4166 | from such zero bits on every number of further symbols is decoded: the loop has no end of its own |
| `InflateEnd.OneLiteral` | v2/3rdparty/stb/stb_image.h:4126-4166 | wherever the input ends, whatever is decoded so far and whatever the distance code, a literal code with the symbol 0 alone spins there |
| `InflateSpin.CodesRead` | v2/3rdparty/stb/stb_image.h:4168-4215 | thirteen bytes whose dynamic header, read bit by bit, gives that code and ends with the input |
| `InflateSpin.SpinIsEndless` | v2/3rdparty/stb/stb_image.h:4288-4314 | so that stream, accepted up to its block data, has no meaning: decoding it never ends |
| `Inflater.OutBuf.Copy` | v2/3rdparty/stb/stb_image.h:4157-4163 | the one-byte-run shortcut and the general loop both append the overlapping copy, byte by byte, of what is already there |
| `Inflater.OutBuf.Expand` | v2/3rdparty/stb/stb_image.h:4093-4110 | doubling makes room without changing the output so far |
| `Inflater.ZBuf.ParseHuffmanBlock` | v2/3rdparty/stb/stb_image.h:4126-4166 | a compressed block does to output and position what the plain block semantics says, errors included |
| `Inflater.ZBuf.ComputeHuffmanCodes` | v2/3rdparty/stb/stb_image.h:4168-4215 | a dynamic block header is read as plain header reading says, refused exactly when that refuses; what it says for every written header is `InflateDynamic.HeaderRead` |
| `Inflater.ZBuf.ParseUncompressedBlock` | v2/3rdparty/stb/stb_image.h:4217-4244 | a stored block yields exactly its payload: prefetched whole bytes go back through the header and none is lost |
| `Inflater.ZBuf.ParseZlib` | v2/3rdparty/stb/stb_image.h:4288-4314 | the prefetching inflater refines the meaning of the stream as a plain bit sequence, over stored, fixed and dynamic blocks; which streams have none is `InflateEnd.UndefinedIff` |
| `Inflater.DecodeMalloc` | v2/3rdparty/stb/stb_image.h:4347-4361 | result and failure depend on the data only, not on the positive initial buffer size |
| `Inflater.DecodeBuffer` | v2/3rdparty/stb/stb_image.h:4363-4372 | with a fixed buffer, the same meaning cut off by its size, streams that run on behind their data until it is full included |
| `Deflater.CountMatch` | v2/3rdparty/stb/stb_image_write.h:822-828 | the count is the longest agreement of two places up to 258 and the limit |
| `Deflater.BestMatch` | v2/3rdparty/stb/stb_image_write.h:885-896 | the chosen candidate lies within 32767 bytes and no candidate in the window agrees on more bytes |
| `Deflater.BetterNext` | v2/3rdparty/stb/stb_image_write.h:904-918 | the current match is given up exactly when a candidate gives the next place a longer one |
| `Deflater.Enter` | v2/3rdparty/stb/stb_image_write.h:897-902 | no chain ever holds more than twice the quality of places, all before the next one; a full chain forgets its older half and no other changes |
| `Deflater.Round` | v2/3rdparty/stb/stb_image_write.h:885-934 | whatever candidates the chains offer, the token written plays back as exactly the data skipped; lengths are 3..258 and distances 1..32767 |
| `DeflateSpec.TokenDecodes` | v2/3rdparty/stb/stb_image_write.h:920-932 | the plain decoder reads each written token back as that token's effect on the output |
| `DeflateSpec.TokensSize` | v2/3rdparty/stb/stb_image_write.h:847-852 | the fixed code costs at most nine bits for each byte the tokens stand for |
| `DeflateSpec.StreamDecodes` | v2/3rdparty/stb/stb_image_write.h:876-941 | header, tokens, end symbol, padding and checksum mean the bytes the tokens stand for |
| `Deflater.Compress` | v2/3rdparty/stb/stb_image_write.h:858-968 | for every input and quality the output inflates to the input, ends in its Adler-32 and grows by at most an eighth and a constant |
| `ZlibRoundTrip.RoundTrip` | v2/3rdparty/stb/stb_image_write.h:858-968 | the inflater's own code returns the compressor's input, for every byte string, quality and initial buffer size |
| `ZlibRoundTrip.ReadStream` | v2/3rdparty/stb/stb_image.h:4347-4361 | the inflater's own code returns, of every such stream of blocks and for every initial buffer size, the bytes the blocks stand for |
| `AdlerChecksum.BlockIsLargest` | v2/3rdparty/stb/stb_image_write.h:947-957 | blocks of n bytes keep both sums within 32 bits exactly when n is at most 5552 |
| `AdlerChecksum.AdlerIs` | v2/3rdparty/stb/stb_image_write.h:947-957 | the two sums are one and the bytes, and the sum of these sums, modulo 65521 |
| `Deflater.KnownAdler` | v2/3rdparty/stb/stb_image_write.h:958-961 | the checksum bytes of abc, high byte first: 02 4d 01 27 |
| `AdlerChecksum.Checksum` | v2/3rdparty/stb/stb_image_write.h:947-962 | the blocked sums are the per-byte modular ones for every length, first block empty included (RFC 1950 section 8.2) |
| `PngFilter.PaethIsNearest` | v2/3rdparty/stb/stb_image.h:4464-4473 | no argument is nearer to a + b - c than the result, which is a if a is among the nearest, and otherwise b if b is |
| `PngFilter.PredictIs` | v2/3rdparty/stb/stb_image.h:4525-4534 | the predictors of filters 0 to 4 by formula: 0, left, up, their average rounded down, and the nearest of the three |
| `PngFilter.RowRoundTrip` | v2/3rdparty/stb/stb_image.h:4525-4571 | unfiltering a filtered row gives the row, for each of the five filters |
| `PngFilter.FilterUnfilter` | v2/3rdparty/stb/stb_image_write.h:1038-1072 | filtering an unfiltered row gives the row back |
| `PngFilter.FirstRowIsZeroPrior` | v2/3rdparty/stb/stb_image.h:4444-4462 | each first-row case predicts what its filter predicts from a row of zeros |
| `PngWriteLine.EncodeLine` | v2/3rdparty/stb/stb_image_write.h:1038-1072 | a line is the filtered row for every stride and flip, without reading above the first row |
| `PngReadLine.UnfilterContiguous` | v2/3rdparty/stb/stb_image.h:4523-4573 | in-place reconstruction of a row next to the one above gives the unfiltered row and changes nothing else |
| `PngReadLine.UnfilterInterleaved` | v2/3rdparty/stb/stb_image.h:4574-4599 | the same when an alpha of 255 is fused in, pixel by pixel |
| `PngUnpack.WriteBehindReads` | v2/3rdparty/stb/stb_image.h:4512-4517 | expanding right-aligned packed samples never writes past the byte being read |
| `PngUnpack.WriteBehindReadsTight` | v2/3rdparty/stb/stb_image.h:4512-4517 | that bound is attained |
| `PngUnpack.ExpandRow` | v2/3rdparty/stb/stb_image.h:4605-4653 | in-place expansion of 1, 2 and 4 bit samples equals the out-of-place one, for every width |
| `PngPack.UnpackPacked` | v2/3rdparty/stb/stb_image.h:4605-4653 | samples of 1, 2 or 4 bits packed as the PNG specification says (section 7.2) are expanded to themselves, scaled, in rows of every width |
| `PngUnpack.InsertAlpha1` | v2/3rdparty/stb/stb_image.h:4654-4662 | the backward alpha pass reads no sample it has overwritten |
| `PngUnpack.InsertAlpha3` | v2/3rdparty/stb/stb_image.h:4663-4672 | the same for three channels |
| `PngRaw.CreateImageRaw` | v2/3rdparty/stb/stb_image.h:4478-4688 | depths 1, 2, 4 and 8: refused exactly on a bad filter byte or too few bytes, otherwise the pixels of the rows reconstructed with the predictors of `PngFilter.PredictIs` |
| `PngWrite.FilterImage` | v2/3rdparty/stb/stb_image_write.h:1092-1120 | whatever filters are forced or chosen, the buffer is the filtered scanlines of the image |
| `PngWrite.ReconScanlines` | v2/3rdparty/stb/stb_image.h:4478-4600 | reconstruction undoes filtering row by row for any sequence of filter types |
| `PngWrite.FlatIsJoined` | v2/3rdparty/stb/stb_image.h:4478-4672 | the reconstructed rows, widened one by one, are the whole image with 255 behind every pixel when alpha is added, and the image itself when not |
| `PngFile.ParsePng` | v2/3rdparty/stb/stb_image.h:4879-5051 | the chunk loop computes the meaning of the file, errors included |
| `PngFile.WritePng` | v2/3rdparty/stb/stb_image_write.h:1074-1158 | for every number of channels asked for, whatever the stride, flip, filters, level and checksum function, parsing the file gives the image, with alpha if it is asked for, exactly when it is within the limits, and fails otherwise |
| `PngFile.AlphaTooLarge` | v2/3rdparty/stb/stb_image.h:4485-4502 | the only images within the limits that asking for alpha makes too large are gray ones of 2^30 pixels |
| `PngFile.SquareTooLarge` | v2/3rdparty/stb/stb_image.h:4485-4502 | 32768 x 32768 gray pixels are one: delivered as they are, refused with alpha |
| `PngFile.FileReads` | v2/3rdparty/stb/stb_image.h:4895-5050 | the three chunks of a written file lead the parser to its data and header, for any checksum |
| `PngChunks.HeadIs` | v2/3rdparty/stb/stb_image.h:4903-4931 | a header is taken exactly within literal limits of size, depth, colour type and methods, the area in samples as a product, and then for what its fields say |
| `PngChunks.FileMeans` | v2/3rdparty/stb/stb_image.h:4895-5050 | any file: its image data put together in order, however it is cut into chunks and whatever ancillary ones stand between, is finished; refused without data, with a header beyond the limits, and by an unknown critical chunk or a second header |
| `PngChunks.HeaderFirst` | v2/3rdparty/stb/stb_image.h:5033-5050 | whatever else stands in the place of the header chunk is refused |
| `PngShown.OutChannelsIs` | v2/3rdparty/stb/stb_image.h:4996-4999 | alpha is added to gray and RGB only, and only when it is asked for |
| `PngShown.ScaleIs` | v2/3rdparty/stb/stb_image.h:4475 | the largest sample of 1, 2 or 4 bits becomes 255 in gray images, and no other image is scaled |
| `PngShown.PixelDelivered` | v2/3rdparty/stb/stb_image_write.h:1074-1158 | byte for byte, what the parser delivers of a written image stands at its product of row, column and channel in memory, rows taken from the end when writing is flipped, 255 for an added alpha |
| `Adam7.PixelHasPlace` | v2/3rdparty/stb/stb_image.h:4702-4709 | every pixel belongs to one pass and lies inside that pass |
| `Adam7.PlaceHasPixel` | v2/3rdparty/stb/stb_image.h:4702-4709 | every place of every pass is one pixel of the image, so pass sizes count exactly the pixels of their residue |
| `Adam7.OriginTables` | v2/3rdparty/stb/stb_image.h:4702-4705 | the origins and spacings, by formula, are those of the tables |
| `Adam7.CreateInterlaced` | v2/3rdparty/stb/stb_image.h:4699-4731 | each pixel of the image is its pass pixel, and the image is refused exactly when a pass is |
| `Adam7.DeinterlaceInvertsExtraction` | v2/3rdparty/stb/stb_image.h:4699-4731 | de-interlacing the passes extracted from an image gives the image |
| `Adam7RoundTrip.ChunkIsPlace` | v2/3rdparty/stb/stb_image.h:4716-4723 | the address copied from finds, in the rows of a pass, the pixel that was taken there |
| `Adam7RoundTrip.RowShows` | v2/3rdparty/stb/stb_image.h:4478-4672 | a pass row packed at any depth up to eight, once expanded and widened, is the row of the pixels as shown: scaled, and with alpha if it is asked for |
| `Adam7RoundTrip.PassReads` | v2/3rdparty/stb/stb_image.h:4705-4730 | behind any earlier passes, the filtered scanlines of a pass are accepted and become the pixels taken from the image as shown, for any filters |
| `Adam7RoundTrip.ReadInterlaced` | v2/3rdparty/stb/stb_image.h:4693-4736 | an image of any size and any depth up to eight, taken pass by pass, packed, filtered by any filters and read by the interlaced loop with or without added alpha, comes back pixel for pixel |
| `TgaPackets.Scan` | v2/3rdparty/stb/stb_image_write.h:526-554 | the packet found is pinned down: a maximal run, or the longest stretch of pixels none of which equals the one two before it, less one when it is cut |
| `TgaPackets.AlternatingPacket` | v2/3rdparty/stb/stb_image_write.h:526-554 | in a row of two pixels by turns no packet is a run, and every one holds a single pixel, but the last two |
| `TgaPackets.WriteRow` | v2/3rdparty/stb/stb_image_write.h:522-568 | packets of 1..128 pixels hold exactly the pixels of this row, with at most one header byte for each pixel but the last; rows of two pixels by turns cost just that |
| `TgaRead.PacketsRead` | v2/3rdparty/stb/stb_image.h:5706-5762 | the reader's count and repeat state machine delivers what the packets stand for, whatever follows them |
| `TgaRead.ReadPixels` | v2/3rdparty/stb/stb_image.h:5706-5762 | the loop delivers the packet meaning for every input |
| `TgaRead.Invert` | v2/3rdparty/stb/stb_image.h:5763-5779 | the in-place byte swap of rows turns the image upside down, middle row included |
| `TgaRead.SwapColours` | v2/3rdparty/stb/stb_image.h:5787-5798 | the in-place swap exchanges first and third colour of every pixel |
| `TgaRead.WriteAllFlipped` | v2/3rdparty/stb/stb_image.h:5763-5798 | swapping colours and turning upside down commute |
| `TgaFile.LoadTga` | v2/3rdparty/stb/stb_image.h:5616-5811 | header checks, packets, flip and swap compute the meaning of the file |
| `TgaFile.WriteTga` | v2/3rdparty/stb/stb_image_write.h:497-573 | opening the file gives the image back, flipped when asked to, exactly when neither side is 0, both fit sixteen bits and the byte count an int |
| `TgaFile.TooLarge` | v2/3rdparty/stb/stb_image.h:5666-5667 | at 65535 x 32769 x 1, which the writer's own offsets still allow, whatever is written is refused |
| `TgaFile.OpenTga` | v2/3rdparty/stb/stb_image.h:5565-5593 | the format test and the loader together compute the meaning of the file |
| `TgaShown.TestIs` | v2/3rdparty/stb/stb_image.h:5565-5593 | the image types, palettes and pixel sizes the format test lets through, as literal sets |
| `TgaShown.FileMeans` | v2/3rdparty/stb/stb_image.h:5616-5811 | any run-length file with literal header fields, identification and any packets for its pixels is the picture they show, turned upside down unless bit 5 of the descriptor is set, or refused when it is too large |
| `TgaShown.PixelShown` | v2/3rdparty/stb/stb_image.h:5763-5798 | every channel of every pixel shown comes from the row counted from the right end, with blue and red exchanged |
| `TgaShown.PacketIs` | v2/3rdparty/stb/stb_image.h:5706-5729 | a packet is its length less one, with 128 on top for a run, then one pixel or all of them |
| `HdrWrite.RunPays` | v2/3rdparty/stb/stb_image_write.h:687-717 | a run of three or more costs no more than it saves, its own headers included |
| `HdrWrite.WriteComponent` | v2/3rdparty/stb/stb_image_write.h:683-719 | packets stand for exactly the component, at most width + ceil(width/128) bytes, attained when no three neighbours are equal |
| `HdrRead.StreamUnpacked` | v2/3rdparty/stb/stb_image.h:6953-6974 | reading a packet stream gives its meaning and stops right behind it |
| `HdrRead.EndlessIff` | v2/3rdparty/stb/stb_image.h:6955-6973 | a component is never filled exactly when all packets whose header lies inside the input cover fewer bytes than it has |
| `HdrRead.GotIff` | v2/3rdparty/stb/stb_image.h:6955-6973 | and it is read exactly when some of them, from the first on, cover just that many |
| `HdrRead.SpinsIff` | v2/3rdparty/stb/stb_image.h:6955-6973 | the loop, turn by turn, goes on for ever exactly on the first kind of input |
| `HdrRead.PastTheEnd` | v2/3rdparty/stb/stb_image.h:6955-6973 | past the end of the input no turn stores anything |
| `HdrRead.ShortInputs` | v2/3rdparty/stb/stb_image.h:6955-6973 | two inputs that end inside their only packet, at the least width the loop is entered for: one fills the component with zeros, the other never does |
| `HdrRead.ReadPacket` | v2/3rdparty/stb/stb_image.h:6958-6972 | one turn of the loop, on every input: where it stands after it and what it stored |
| `HdrRead.ReadComponent` | v2/3rdparty/stb/stb_image.h:6953-6974 | whenever the packets that begin inside the input cover the component, the strided loop writes it as decoded and leaves the other three alone |
| `HdrRead.ScanlineReads` | v2/3rdparty/stb/stb_image.h:6927-6975 | a written scanline is recognised by its mark and width and comes back pixel for pixel |
| `HdrRead.Load` | v2/3rdparty/stb/stb_image.h:6911-6982 | run-length and flat reading, with the fallback that restarts the image from a scanline without the mark |
| `HdrRead.WriteImage` | v2/3rdparty/stb/stb_image_write.h:634-746 | wherever the written pixels stand in a file, reading there gives the RGBE image back for every width and height |
| `HdrShown.PacketIs` | v2/3rdparty/stb/stb_image_write.h:618-632 | a dump is its length and bytes, a run its length and 128, and the byte |
| `HdrShown.RowsThenFlat` | v2/3rdparty/stb/stb_image.h:6927-6948 | behind any number of good scanlines, one without the mark makes its bytes and what follows the whole flat image, and a mark with another width is an error |
| `HdrShown.FlatWidths` | v2/3rdparty/stb/stb_image.h:6911-6922 | images narrower than 8 or wider than 32767 pixels are flat from the first byte on |
| `GifCells.RowOrderOnce` | v2/3rdparty/stb/stb_image.h:6404-6413 | interlaced or not, every row comes exactly once, for all heights |
| `GifCells.InRowOrder` | v2/3rdparty/stb/stb_image.h:6599-6605 | non-interlaced rows come top to bottom |
| `GifCells.InterlacedOrder` | v2/3rdparty/stb/stb_image.h:6404-6413 | interlaced rows come as rows 0, 8, 16 ..., then 4, 12 ..., then 2, 6 ..., then the odd ones |
| `GifCells.FrameCellAt` | v2/3rdparty/stb/stb_image.h:6379-6414 | the k-th cell of a frame is its column k modulo the width in the next row of that order |
| `GifCells.FrameCellsOnce` | v2/3rdparty/stb/stb_image.h:6389-6413 | the cells of a frame are visited exactly once and none lies outside the rectangle |
| `GifPaint.PaintHit` | v2/3rdparty/stb/stb_image.h:6389-6403 | the k-th symbol s marks the k-th cell and leaves there bytes 2, 1, 0 and 3 of its table entry at 4s, unless byte 3 is at most 128 |
| `GifPaint.PaintMiss` | v2/3rdparty/stb/stb_image.h:6389-6403 | a pixel no symbol is put at keeps its colour and mark |
| `GifLzw.NewString` | v2/3rdparty/stb/stb_image.h:6469-6478 | a code behind another enters the text emitted before and the first symbol of the text emitted now, also when that is the new string itself |
| `GifLzw.RejectIff` | v2/3rdparty/stb/stb_image.h:6458-6496 | a code is refused exactly when a clear code is due, when it lies above the entry being created, or names it with no code before, or when 8192 strings are entered |
| `GifEncode.CodesRead` | v2/3rdparty/stb/stb_image.h:6453-6496 | the encoder of GIF89a appendix F, with a dictionary of its own, is undone for every list of symbols, however its strings repeat and however often the dictionary fills up |
| `GifEncode.RasterRead` | v2/3rdparty/stb/stb_image.h:6416-6499 | the same for the data of an image: root width, codes packed into bytes, sub-blocks |
| `GifEncode.RootWidths` | v2/3rdparty/stb/stb_image.h:6424-6427 | roots of more than twelve bits are refused, and no others |
| `GifLzw.GrowsWhenFull` | v2/3rdparty/stb/stb_image.h:6488-6491 | for root widths from one bit on, testing the low bits of the count widens codes exactly when the table is full for the width, up to twelve bits |
| `GifLzw.NoRootBits` | v2/3rdparty/stb/stb_image.h:6488-6491 | with roots of no bits it does not: the first two codes already leave the next entry without a code |
| `GifDeferred.CodeAgrees` | v2/3rdparty/stb/stb_image.h:6458-6496 | code for code, the table of 8192 behaves as one frozen at 4096 while fewer than 4096 strings were missed |
| `GifDeferred.DeferredAgrees` | v2/3rdparty/stb/stb_image.h:6458-6496 | from any related states every stream decodes as with tables frozen at 4096 until they are cleared, except that more than 4096 missed strings make it fail |
| `GifDeferred.FrameAgrees` | v2/3rdparty/stb/stb_image.h:6424-6496 | the same for the codes of a whole frame |
| `GifDeferred.OverrunIsRefused` | v2/3rdparty/stb/stb_image.h:6458-6496 | for every root width, a clear code and then zeros enough are refused, while the frozen table reads them |
| `GifDeferred.ZeroBytesRefused` | v2/3rdparty/stb/stb_image.h:6458-6496 | in bytes: 4 and 12282 or more zeros, with roots of two bits |
| `GifLzw.RepresentsMore` | v2/3rdparty/stb/stb_image.h:6469-6478 | a new table entry spells the old string and one symbol; prefixes stay below their own index |
| `GifRaster.NextRow` | v2/3rdparty/stb/stb_image.h:6404-6413 | leaving a row, the cursor goes to the next row of the visiting order or stops below the frame |
| `GifRaster.Gif.OutCode` | v2/3rdparty/stb/stb_image.h:6379-6414 | the prefix recursion ends and paints the string of the code, first symbol first |
| `GifRaster.Gif.AddEntry` | v2/3rdparty/stb/stb_image.h:6469-6478 | the entry made is right also when the code is the entry being created |
| `GifRaster.Gif.ProcessRaster` | v2/3rdparty/stb/stb_image.h:6416-6499 | the prefetching decoder paints exactly the symbols plain LZW decoding gives for the sub-block data, and fails exactly when it does; that decoding undoes the encoder of the format (`GifEncode.CodesRead`) |
| `GifRaster.Gif.DrawFrame` | v2/3rdparty/stb/stb_image.h:6570-6616 | a frame is accepted exactly when it lies on the screen and its codes are sound, and is painted over its cells in visiting order |
| `GifEncode.DrawWritten` | v2/3rdparty/stb/stb_image.h:6416-6499 | a frame written by that encoder is drawn by the table-driven decoder: the table bytes of every symbol at its own cell, red first |
| `GifRaster.FrameShows` | v2/3rdparty/stb/stb_image.h:6379-6414 | symbol k of a frame is seen at its k-th cell, with the bytes its table entry has, whatever else is painted |
| `Md5Words.HalfRotate` | v2/sample/common/md5sum.c:24 | ROTATE on a 64-bit register agrees on the low half with a 32-bit rotation, whatever is above |
| `Md5Words.HalfFun` | v2/sample/common/md5sum.c:58-61 | the four macros' functions agree on the low halves with those of RFC 1321 section 3.4 |
| `Md5Words.HalfR` | v2/sample/common/md5sum.c:63-86 | one macro is one step of the RFC on the low halves |
| `Md5Block.Round0` | v2/sample/common/md5sum.c:113-157 | the sixteen lines of round 0, with their words, shifts and constants, are the RFC's steps |
| `Md5Block.Round1` | v2/sample/common/md5sum.c:158-174 | the same for round 1 |
| `Md5Block.Round2` | v2/sample/common/md5sum.c:175-191 | the same for round 2 |
| `Md5Block.Round3` | v2/sample/common/md5sum.c:192-208 | the same for round 3 |
| `Md5Block.Block` | v2/sample/common/md5sum.c:88-215 | a block changes the context as the RFC's compression does, although registers carry more than a word |
| `Md5.CountAdds` | v2/sample/common/md5sum.c:247-254 | the split addition keeps (Nh,Nl) the bit length modulo 2^64 for every length |
| `Md5.MD5_CTX.Update` | v2/sample/common/md5sum.c:237-289 | the context stands for the bytes so far and these; num stays below 64 |
| `Md5.MD5_CTX.Final` | v2/sample/common/md5sum.c:291-322 | the digest of all bytes given, padding in one block or two |
| `Md5.MD5` | v2/sample/common/md5sum.c:324-336 | the RFC 1321 digest of the message; on the first two messages of the RFC's test suite it is worked out in `Md5Known` |
| `Md5.DigestChunks` | v2/sample/common/md5sum.c:237-322 | the same digest however the message is cut into chunks |
| `Md5Spec.PaddingIs` | v2/sample/common/md5sum.c:291-322 | a byte 0x80, as few zeros as fill a block, and the number of bits modulo 2^64 in eight bytes, low one first |
| `Md5Known.DigestEmpty` | v2/sample/common/md5sum.c:88-215 | the digest of no bytes is d41d8cd98f00b204e9800998ecf8427e, through all 64 steps |
| `Md5Known.DigestAbc` | v2/sample/common/md5sum.c:88-215 | the digest of abc is 900150983cd24fb0d6963f7d28e17f72, through all 64 steps |
| `JpegHuffman.OneBegins` | v2/3rdparty/stb/stb_image.h:1912-1926 | no code word begins with another |
| `JpegHuffman.FastLookup` | v2/3rdparty/stb/stb_image.h:1929-1940 | a nine-bit lookup finds the symbol whose code comes next, and an empty one means no code of nine bits or less does |
| `JpegHuffman.SlowLookup` | v2/3rdparty/stb/stb_image.h:2013-2039 | the search through maxcode ends at the code's length and delta turns the code into its symbol number |
| `JpegTables.JpegTable.Build` | v2/3rdparty/stb/stb_image.h:1902-1942 | tables of at most 255 symbols are accepted exactly when the code words fit sixteen bits, and then all three tables describe that code |
| `JpegBits.UnstuffStuff` | v2/3rdparty/stb/stb_image.h:1971-1987 | byte stuffing in front of a marker is undone |
| `JpegStream.JpegWriter.WriteBits` | v2/3rdparty/stb/stb_image_write.h:1199-1214 | the bits written are appended to the stream, through the shift register and byte stuffing |
| `JpegStream.JpegReader.Grow` | v2/3rdparty/stb/stb_image.h:1971-1987 | the buffer holds the next bits of the unstuffed segment, zeros behind a marker, and refilling loses none |
| `JpegDecode.HuffDecode` | v2/3rdparty/stb/stb_image.h:1993-2040 | lookup and search together are the plain decoder for every code that ends within the segment |
| `JpegDecode.ExtendReceive` | v2/3rdparty/stb/stb_image.h:2047-2060 | the rotate-and-mask form is receive followed by extend (ITU-T T.81 section F.2.2.1) |
| `JpegBlocks.BuildFastAc` | v2/3rdparty/stb/stb_image.h:1946-1969 | each nonzero entry holds value, run and length of a symbol and its bits that fit nine bits |
| `JpegBlocks.FastAcStep` | v2/3rdparty/stb/stb_image.h:2125-2134 | a combined entry is one step of plain decoding: same run, value and length |
| `JpegBlocks.DecodeBlock` | v2/3rdparty/stb/stb_image.h:2102-2152 | on every block plain decoding reads within the segment, the tables give the same coefficients, predictor and position |
| `JpegBlocks.ShortIs` | v2/3rdparty/stb/stb_image.h:2117-2147 | a coefficient is stored as the 16-bit value congruent to it, itself when it has sixteen bits |
| `JpegKnown.ZigZagWalk` | v2/3rdparty/stb/stb_image.h:2086-2099 | the table of places walks up the even diagonals and down the odd ones (ITU-T T.81 figure A.6) |
| `JpegEncode.MagnitudeExtends` | v2/3rdparty/stb/stb_image_write.h:1264-1272 | extending the bits of a value gives the value |
| `JpegEncode.ProcessDU` | v2/3rdparty/stb/stb_image_write.h:1301-1341 | the bits of a block are code, run and value bits in zigzag order, without an end code behind a last nonzero coefficient |
| `JpegRoundTrip.AcRead` | v2/3rdparty/stb/stb_image.h:2119-2150 | plain decoding restores every AC coefficient, runs of sixteen zeros and omitted end codes included |
| `JpegRoundTrip.BlockRead` | v2/3rdparty/stb/stb_image_write.h:1301-1341 | plain decoding reads a written block back and stops right behind it |
| `JpegRoundTrip.CoefficientsRestored` | v2/3rdparty/stb/stb_image.h:2086-2099 | each coefficient comes back in its own place, times its quantiser: the product itself in sixteen bits, and otherwise the 16-bit value congruent to it modulo 65536 |
| `JpegScan.WriteScan` | v2/3rdparty/stb/stb_image_write.h:1468-1549 | a scan is the stuffed bits of its blocks, less than eight fill bits, all of them 1, and the end marker |
| `JpegScan.WriteAndRead` | v2/3rdparty/stb/stb_image_write.h:1301-1341 | any blocks the tables have codes for survive writing and the table-driven reader, predictor chain included |
| `JpegKnown.KnownScan` | v2/3rdparty/stb/stb_image_write.h:1301-1341 | the bits of a scan of two blocks with the tables of ITU-T T.81 annex K, literally: sizes, values, zero run, DC difference, end codes |
| `JpegStandard.StandardAgrees` | v2/3rdparty/stb/stb_image_write.h:1346-1408 | every literal code word of the writer is the code of the counts and values it puts into the file header |
| `JpegStandard.StandardRoundTrip` | v2/3rdparty/stb/stb_image_write.h:1346-1408 | with the tables built from that header, blocks with DC differences below 2^11 and AC values below 2^10 come back, every coefficient in its natural place and as its product with its quantiser, or that product modulo 65536 when it exceeds sixteen bits |
| `IniText.RStrip` | v2/3rdparty/inih/ini.c:38-44 | writing zeros from the end trims the string in place and nothing around it changes |
| `IniText.FindCharsOrComment` | v2/3rdparty/inih/ini.c:57-72 | the scan stops at the first delimiter, the first ; behind white space, or the end |
| `IniText.Strncpy0` | v2/3rdparty/inih/ini.c:75-80 | the copy is the string cut to the buffer |
| `IniParse.LinesConcat` | v2/3rdparty/inih/ini.c:251-274 | the reader's chunks put together are the input |
| `IniParse.LinesFit` | v2/3rdparty/inih/ini.c:251-274 | each chunk fits the buffer and ends a line, the input or the buffer |
| `IniParse.IniParser.ParseLine` | v2/3rdparty/inih/ini.c:143-214 | parsing a line in place has the effect its text has: section, remembered name, call or error |
| `IniParse.ErrorIsFirst` | v2/3rdparty/inih/ini.c:162-212 | the result is the number of the first failing line, 0 exactly when none fails |
| `IniParse.ParseString` | v2/3rdparty/inih/ini.c:83-227 | calls and result are those of the lines in order, whatever the handler answers |
| `IniPrint.PrintParse` | v2/3rdparty/inih/ini.c:83-227 | files laid out in any way the parser allows, with headings, both delimiters, white space, inline and whole-line comments, continued values, blank and malformed lines and a byte order mark, give exactly the calls they stand for, in order, and the number of the first line that fails |

## Left out

- PngRaw.CreateImageRaw: 16-bit samples are not modelled; they repeat the 8-bit loops with two bytes a sample.
- PngFile.ParsePng: files with palettes, transparency chunks, the iPhone chunk, 16-bit samples or interlacing are outside its precondition; interlacing is proved separately in `Adam7` and `Adam7RoundTrip`, on inflated data.
- PngFile.WritePng: the CRC-32 is an arbitrary function of the chunk, since the reader ignores it; overflow of `(x*n+1)*y` in the writer's `int` for images beyond the reader's limits, and the conversion to other channel counts behind the parser, are not modelled.
- Adam7.DeinterlaceInvertsExtraction: the extraction is a hypothesis; `Adam7RoundTrip` carries it out.
- Adam7.CreateInterlaced: 16-bit samples are excluded as above, and the final image holds one pixel per element where the source addresses its bytes.
- Inflater.ZBuf.ParseZlib: streams that come to the reserved distance symbols 30 and 31, where the source copies bytes it has not written, or that spin behind their data have no stated result; `InflateEnd.UndefinedIff` says which these are. The same holds for `Inflater.ZBuf.ParseHuffmanBlock`, `Inflater.DecodeMalloc` and `Inflater.DecodeBuffer`.
- InflateBlocks.StreamRead: streams are written with the compressor's tokens, so the distance 32768 and the length 258 as symbol 284, which the format also allows, are not among them; `Inflater.ZBuf.ParseZlib` does not depend on how a stream was written.
- GifEncode.CodesRead: the repository has no GIF encoder; this one follows the format's specification and empties its dictionary as soon as it is full, with roots of one to eight bits.
- Inflater.OutBuf.Expand: overflow of the doubled size in `int` and failing allocation are not modelled.
- Deflater.Hash: only its range is stated; the match finder is right for any hash.
- Deflater.Compress: `data_len` and the quality are unbounded here, `int` in the source, so `2*quality` does not overflow.
- TgaFile.LoadTga: palettes, 15 and 16 bit colour and files without run-length packets are outside its precondition; conversion to another channel count is left out.
- TgaFile.OpenTga: the same files are outside its precondition.
- HdrRead.ReadComponent: inputs on which the loop spins are outside its precondition, since it does not return on them.
- HdrRead.Load: the text header is left out, and pixels stay RGBE bytes; conversion from and to floating point is not modelled. Truncated flat data, which the source reads into uninitialised memory, is outside its precondition.
- GifLzw.GrowsWhenFull: root width 0 is excluded, since the property fails there (`GifLzw.NoRootBits`).
- GifRaster.Gif.DrawFrame: descriptor fields and the active colour table are parameters; disposal, background fill and extension blocks are left out.
- JpegDecode.HuffDecode: on streams that end inside a code nothing is promised; the negative bit count the source then works with is not modelled.
- JpegDecode.ExtendReceive: on fields that end past the segment nothing is promised, for the same reason.
- JpegTables.JpegTable.Build: tables of 256 symbols are outside its precondition, since the fast table marks a miss by symbol number 255.
- JpegBlocks.DecodeBlock: it requires a block that plain decoding reads within the segment; DC sizes above fifteen and tables of 256 symbols are excluded.
- JpegScan.WriteScan: transform, quantisation, colour conversion, the order of blocks within a macroblock, restart intervals and progressive scans are left out.
- Md5Block.Block: modelled for a 64-bit `unsigned long`; with 32-bit registers nothing has to be shown.
- IniParse.ParseString: the handler is a function of the calls so far; file and stdio input, a growing line buffer and the compile-time options other than the defaults are left out.
- Floating-point code, SIMD variants, stdio callbacks, the other image formats and the camera and multimedia headers of the repository: declarations or file parsing without a harder property than those above.
