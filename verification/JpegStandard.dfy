/**
  The tables of stbi_write_jpg_core: the literal code words it writes with are the code of
  the length counts and value lists it puts into the file header.
*/
module JpegStandard {
  import opened Bits
  import opened JpegHuffman
  import opened JpegTables
  import opened JpegBlocks
  import opened JpegEncode
  import opened JpegRoundTrip
  import opened JpegScan

  // ---- code words from length counts ----

  /** The first code word of length j. */
  function First(count: seq<nat>, j: nat): nat
    requires 1 <= j <= |count|
  {
    if j == 1 then 0 else 2 * (First(count, j - 1) + count[j - 2])
  }

  lemma {:induction false} SizeInRange(count: seq<nat>, n: nat, j: nat, i: nat)
    requires 1 <= j <= n <= |count| && |Sizes(count, j - 1)| <= i < |Sizes(count, j)|
    ensures i < |Sizes(count, n)| && Sizes(count, n)[i] == j
  {
    if j < n {
      SizeInRange(count, n - 1, j, i);
    }
  }

  lemma {:induction false} EdgeRun(sizes: seq<nat>, a: nat, b: nat, s: nat)
    requires SizesOk(sizes) && a <= b <= |sizes| && 1 <= s <= 16 && forall i :: a <= i < b ==> sizes[i] == s
    ensures Edge(sizes, b) == Edge(sizes, a) + Shl(b - a, 16 - s)
    decreases b - a
  {
    ShlOne(16 - s);
    if a < b {
      EdgeRun(sizes, a, b - 1, s);
      ShlAdd(b - 1 - a, 1, 16 - s);
    }
  }

  lemma {:induction false} EdgeAt(count: seq<nat>, j: nat)
    requires |count| == 16 && SizesOk(Sizes(count, 16)) && 1 <= j <= 16
    ensures |Sizes(count, j - 1)| <= |Sizes(count, 16)|
    ensures Edge(Sizes(count, 16), |Sizes(count, j - 1)|) == Shl(First(count, j), 16 - j)
  {
    hide Edge, SizesOk, Sizes, First, Shl;
    var sizes := Sizes(count, 16);
    SizesBound(count, j - 1, 16);
    if j == 1 {
      ShlOne(15);
      NoEdge(sizes);
      NoSizes(count);
    } else {
      var a, b := |Sizes(count, j - 2)|, |Sizes(count, j - 1)|;
      EdgeAt(count, j - 1);
      SizesStep(count, j - 1);
      forall i | a <= i < b ensures sizes[i] == j - 1 {
        SizeInRange(count, 16, j - 1, i);
      }
      EdgeRun(sizes, a, b, j - 1);
      ShlAdd(First(count, j - 1), count[j - 2], 17 - j);
      ShlTwice(First(count, j - 1) + count[j - 2], 16 - j);
    }
  }

  lemma NoSizes(count: seq<nat>)
    requires |count| == 16
    ensures |Sizes(count, 0)| == 0 && First(count, 1) == 0
  {
  }

  lemma SizesStep(count: seq<nat>, j: nat)
    requires 1 <= j < |count| == 16
    ensures |Sizes(count, j)| == |Sizes(count, j - 1)| + count[j - 1]
    ensures First(count, j + 1) == 2 * (First(count, j) + count[j - 1])
  {
  }

  lemma {:induction false} ShlTwice(x: nat, n: nat)
    ensures Shl(2 * x, n) == Shl(x, n + 1)
  {
    if n > 0 {
      ShlTwice(x, n - 1);
    }
  }

  lemma NoEdge(sizes: seq<nat>)
    requires SizesOk(sizes)
    ensures Edge(sizes, 0) == 0
  {
  }

  /** Symbol i among those of length j. */
  lemma WordIs(count: seq<nat>, j: nat, i: nat)
    requires |count| == 16 && SizesOk(Sizes(count, 16)) && 1 <= j <= 16
    requires |Sizes(count, j - 1)| <= i < |Sizes(count, j)|
    ensures i < |Sizes(count, 16)| && Sizes(count, 16)[i] == j
    ensures CodeWord(Sizes(count, 16), i) == First(count, j) + (i - |Sizes(count, j - 1)|)
  {
    hide Edge, SizesOk, CodeWord, First, Sizes;
    var sizes, a := Sizes(count, 16), |Sizes(count, j - 1)|;
    SizeInRange(count, 16, j, i);
    EdgeAt(count, j);
    forall m | a <= m < i ensures sizes[m] == j {
      SizeInRange(count, 16, j, m);
    }
    EdgeRun(sizes, a, i, j);
    EdgeIsCode(sizes, i);
    var f, c := First(count, j) + (i - a), CodeWord(sizes, i);
    ShlAdd(First(count, j), i - a, 16 - j);
    if f < c {
      ShlLess(f, c, 16 - j);
    } else if c < f {
      ShlLess(c, f, 16 - j);
    }
  }

  /** Totals and first code words, length by length. */
  predicate Listed(count: seq<nat>, total: seq<nat>, first: seq<nat>)
  {
    |count| == 16 && |total| == |first| == 17 && Totals(count, total) && Firsts(count, first)
  }

  predicate Totals(count: seq<nat>, total: seq<nat>)
    requires |count| == 16 && |total| == 17
  {
    total[0] == 0 && forall j :: 1 <= j <= 16 ==> total[j] == total[j - 1] + count[j - 1]
  }

  predicate Firsts(count: seq<nat>, first: seq<nat>)
    requires |count| == 16 && |first| == 17
  {
    first[1] == 0 && forall j :: 2 <= j <= 16 ==> first[j] == 2 * (first[j - 1] + count[j - 2])
  }

  lemma {:induction false} ListedTotal(count: seq<nat>, total: seq<nat>, first: seq<nat>, j: nat)
    requires Listed(count, total, first) && j <= 16
    ensures |Sizes(count, j)| == total[j] && (j >= 1 ==> First(count, j) == first[j])
  {
    if j > 0 {
      ListedTotal(count, total, first, j - 1);
    }
  }

  /** A table entry is the code word of symbol number i. */
  predicate EntryIs(total: seq<nat>, first: seq<nat>, e: Code, i: int)
    requires |total| == |first| == 17
  {
    && 1 <= e.len <= 16 && i == total[e.len - 1] + e.word - first[e.len]
    && total[e.len - 1] <= i < total[e.len]
  }

  lemma EntryAgrees(count: seq<nat>, total: seq<nat>, first: seq<nat>, values: seq<byte>, ht: seq<Code>, v: nat, i: nat)
    requires Listed(count, total, first) && SizesOk(Sizes(count, 16)) && |values| == 256 && v < |ht|
    requires EntryIs(total, first, ht[v], i) && i < 256 && values[i] as int == v
    ensures Agrees(ht, Huff(Sizes(count, 16), values), v)
  {
    hide SizesOk, CodeWord, First, Sizes;
    var e := ht[v];
    ListedTotal(count, total, first, e.len - 1);
    ListedTotal(count, total, first, e.len);
    WordIs(count, e.len, i);
    assert IsSymbol(ht, Huff(Sizes(count, 16), values), v, i);
  }

  lemma ListedFits(count: seq<nat>, total: seq<nat>, first: seq<nat>)
    requires Listed(count, total, first) && total[16] <= 255 && first[16] + count[15] <= 0x1_0000
    ensures |Sizes(count, 16)| == total[16] && SizesOk(Sizes(count, 16)) && Fitting(Sizes(count, 16))
  {
    hide Edge, SizesOk, First, Sizes;
    ListedTotal(count, total, first, 16);
    ListedTotal(count, total, first, 15);
    SizesAreOk(count);
    var sizes := Sizes(count, 16);
    EdgeAt(count, 16);
    forall i | total[15] <= i < total[16] ensures sizes[i] == 16 {
      SizeInRange(count, 16, 16, i);
    }
    EdgeRun(sizes, total[15], total[16], 16);
    assert Shl(first[16], 0) == first[16] && Shl(count[15], 0) == count[15];
  }

  // ---- the luminance DC tables ----

  /** std_dc_luminance_nrcodes */
  function YdcCount(): seq<nat> { [0, 1, 5, 1, 1, 1, 1, 1, 1, 0, 0, 0, 0, 0, 0, 0] }

  function YdcTotal(): seq<nat> { [0, 0, 1, 6, 7, 8, 9, 10, 11, 12, 12, 12, 12, 12, 12, 12, 12] }

  function YdcFirst(): seq<nat> { [0, 0, 0, 2, 14, 30, 62, 126, 254, 510, 1022, 2044, 4088, 8176, 16352, 32704, 65408] }

  /** std_dc_luminance_values */
  function YdcValue(k: nat): byte
  {
    match k
    case 0 => 0x00 case 1 => 0x01 case 2 => 0x02 case 3 => 0x03 case 4 => 0x04 case 5 => 0x05
    case 6 => 0x06 case 7 => 0x07 case 8 => 0x08 case 9 => 0x09 case 10 => 0x0a case 11 => 0x0b
    case _ => 0
  }

  /** YDC_HT */
  function YdcCode(k: nat): Code
  {
    match k
    case 0x00 => Code(0, 2) case 0x01 => Code(2, 3) case 0x02 => Code(3, 3) case 0x03 => Code(4, 3)
    case 0x04 => Code(5, 3) case 0x05 => Code(6, 3) case 0x06 => Code(14, 4) case 0x07 => Code(30, 5)
    case 0x08 => Code(62, 6) case 0x09 => Code(126, 7) case 0x0a => Code(254, 8) case 0x0b => Code(510, 9)
    case _ => Code(0, 0)
  }

  function YdcValues(): (r: seq<byte>)
    ensures |r| == 256
  {
    seq(256, k requires 0 <= k => YdcValue(k))
  }

  function YdcCodes(): (r: seq<Code>)
    ensures |r| == 256
  {
    seq(256, k requires 0 <= k => YdcCode(k))
  }

  lemma YdcTotals()
    ensures |YdcCount()| == 16 && |YdcTotal()| == 17 && Totals(YdcCount(), YdcTotal())
  {
  }

  lemma YdcFirsts()
    ensures |YdcCount()| == 16 && |YdcFirst()| == 17 && Firsts(YdcCount(), YdcFirst())
  {
  }

  lemma YdcListed()
    ensures Listed(YdcCount(), YdcTotal(), YdcFirst())
  {
    hide YdcCount, YdcTotal, YdcFirst, Totals, Firsts;
    YdcTotals();
    YdcFirsts();
  }

  lemma YdcRight(v: nat) returns (i: nat)
    requires DcValue(v)
    ensures EntryIs(YdcTotal(), YdcFirst(), YdcCode(v), i) && i < 256 && YdcValue(i) as int == v
  {
    var e := YdcCode(v);
    i := YdcTotal()[e.len - 1] + e.word - YdcFirst()[e.len];
  }

  lemma YdcAgrees()
    ensures DcTable(YdcCodes(), Huff(Sizes(YdcCount(), 16), YdcValues()))
  {
    hide YdcCount, YdcTotal, YdcFirst, YdcValue, YdcCode, EntryIs, Agrees, Listed, SizesOk, Fitting, Sizes;
    YdcListed();
    YdcSums();
    ListedFits(YdcCount(), YdcTotal(), YdcFirst());
    forall v: nat | DcValue(v) ensures Agrees(YdcCodes(), Huff(Sizes(YdcCount(), 16), YdcValues()), v) {
      var i := YdcRight(v);
      EntryAgrees(YdcCount(), YdcTotal(), YdcFirst(), YdcValues(), YdcCodes(), v, i);
    }
  }

  lemma YdcSums()
    ensures |YdcCount()| == 16 && |YdcTotal()| == |YdcFirst()| == 17
    ensures YdcTotal()[16] == 12 && YdcFirst()[16] + YdcCount()[15] <= 0x1_0000
  {
  }

  // ---- the luminance AC tables ----

  /** std_ac_luminance_nrcodes */
  function YacCount(): seq<nat> { [0, 2, 1, 3, 3, 2, 4, 3, 5, 5, 4, 4, 0, 0, 1, 125] }

  function YacTotal(): seq<nat> { [0, 0, 2, 3, 6, 9, 11, 15, 18, 23, 28, 32, 36, 36, 36, 37, 162] }

  function YacFirst(): seq<nat> { [0, 0, 0, 4, 10, 26, 58, 120, 248, 502, 1014, 2038, 4084, 8176, 16352, 32704, 65410] }

  /** std_ac_luminance_values from 0 on */
  function YacValue0(k: nat): byte
  {
    match k
    case 0 => 0x01 case 1 => 0x02 case 2 => 0x03 case 3 => 0x00 case 4 => 0x04 case 5 => 0x11 case 6 => 0x05
    case 7 => 0x12 case 8 => 0x21 case 9 => 0x31 case 10 => 0x41 case 11 => 0x06 case 12 => 0x13 case 13 => 0x51
    case 14 => 0x61 case 15 => 0x07 case 16 => 0x22 case 17 => 0x71 case 18 => 0x14 case 19 => 0x32 case 20 => 0x81
    case 21 => 0x91 case 22 => 0xa1 case 23 => 0x08 case 24 => 0x23 case 25 => 0x42 case 26 => 0xb1 case 27 => 0xc1
    case 28 => 0x15 case 29 => 0x52 case 30 => 0xd1 case 31 => 0xf0 case 32 => 0x24 case 33 => 0x33 case 34 => 0x62
    case 35 => 0x72 case 36 => 0x82 case 37 => 0x09 case 38 => 0x0a case 39 => 0x16 case 40 => 0x17 case 41 => 0x18
    case 42 => 0x19 case 43 => 0x1a case 44 => 0x25 case 45 => 0x26 case 46 => 0x27 case 47 => 0x28
    case _ => 0
  }

  /** std_ac_luminance_values from 48 on */
  function YacValue1(k: nat): byte
  {
    match k
    case 48 => 0x29 case 49 => 0x2a case 50 => 0x34 case 51 => 0x35 case 52 => 0x36 case 53 => 0x37 case 54 => 0x38
    case 55 => 0x39 case 56 => 0x3a case 57 => 0x43 case 58 => 0x44 case 59 => 0x45 case 60 => 0x46 case 61 => 0x47
    case 62 => 0x48 case 63 => 0x49 case 64 => 0x4a case 65 => 0x53 case 66 => 0x54 case 67 => 0x55 case 68 => 0x56
    case 69 => 0x57 case 70 => 0x58 case 71 => 0x59 case 72 => 0x5a case 73 => 0x63 case 74 => 0x64 case 75 => 0x65
    case 76 => 0x66 case 77 => 0x67 case 78 => 0x68 case 79 => 0x69 case 80 => 0x6a case 81 => 0x73 case 82 => 0x74
    case 83 => 0x75 case 84 => 0x76 case 85 => 0x77 case 86 => 0x78 case 87 => 0x79 case 88 => 0x7a case 89 => 0x83
    case 90 => 0x84 case 91 => 0x85 case 92 => 0x86 case 93 => 0x87 case 94 => 0x88 case 95 => 0x89
    case _ => 0
  }

  /** std_ac_luminance_values from 96 on */
  function YacValue2(k: nat): byte
  {
    match k
    case 96 => 0x8a case 97 => 0x92 case 98 => 0x93 case 99 => 0x94 case 100 => 0x95 case 101 => 0x96
    case 102 => 0x97 case 103 => 0x98 case 104 => 0x99 case 105 => 0x9a case 106 => 0xa2 case 107 => 0xa3
    case 108 => 0xa4 case 109 => 0xa5 case 110 => 0xa6 case 111 => 0xa7 case 112 => 0xa8 case 113 => 0xa9
    case 114 => 0xaa case 115 => 0xb2 case 116 => 0xb3 case 117 => 0xb4 case 118 => 0xb5 case 119 => 0xb6
    case 120 => 0xb7 case 121 => 0xb8 case 122 => 0xb9 case 123 => 0xba case 124 => 0xc2 case 125 => 0xc3
    case 126 => 0xc4 case 127 => 0xc5 case 128 => 0xc6 case 129 => 0xc7 case 130 => 0xc8 case 131 => 0xc9
    case 132 => 0xca case 133 => 0xd2 case 134 => 0xd3 case 135 => 0xd4 case 136 => 0xd5 case 137 => 0xd6
    case 138 => 0xd7 case 139 => 0xd8 case 140 => 0xd9 case 141 => 0xda case 142 => 0xe1 case 143 => 0xe2
    case _ => 0
  }

  /** std_ac_luminance_values from 144 on */
  function YacValue3(k: nat): byte
  {
    match k
    case 144 => 0xe3 case 145 => 0xe4 case 146 => 0xe5 case 147 => 0xe6 case 148 => 0xe7 case 149 => 0xe8
    case 150 => 0xe9 case 151 => 0xea case 152 => 0xf1 case 153 => 0xf2 case 154 => 0xf3 case 155 => 0xf4
    case 156 => 0xf5 case 157 => 0xf6 case 158 => 0xf7 case 159 => 0xf8 case 160 => 0xf9 case 161 => 0xfa
    case _ => 0
  }

  function YacValue(k: nat): byte
  {
    if k < 48 then YacValue0(k) else if k < 96 then YacValue1(k) else if k < 144 then YacValue2(k) else YacValue3(k)
  }

  /** YAC_HT from 0x0 on */
  function YacCode0(k: nat): Code
  {
    match k
    case 0x00 => Code(10, 4) case 0x01 => Code(0, 2) case 0x02 => Code(1, 2) case 0x03 => Code(4, 3)
    case 0x04 => Code(11, 4) case 0x05 => Code(26, 5) case 0x06 => Code(120, 7) case 0x07 => Code(248, 8)
    case 0x08 => Code(1014, 10) case 0x09 => Code(65410, 16) case 0x0a => Code(65411, 16) case 0x11 => Code(12, 4)
    case 0x12 => Code(27, 5) case 0x13 => Code(121, 7) case 0x14 => Code(502, 9) case 0x15 => Code(2038, 11)
    case 0x16 => Code(65412, 16) case 0x17 => Code(65413, 16) case 0x18 => Code(65414, 16) case 0x19 => Code(65415, 16)
    case 0x1a => Code(65416, 16)
    case _ => Code(0, 0)
  }

  /** YAC_HT from 0x20 on */
  function YacCode1(k: nat): Code
  {
    match k
    case 0x21 => Code(28, 5) case 0x22 => Code(249, 8) case 0x23 => Code(1015, 10) case 0x24 => Code(4084, 12)
    case 0x25 => Code(65417, 16) case 0x26 => Code(65418, 16) case 0x27 => Code(65419, 16) case 0x28 => Code(65420, 16)
    case 0x29 => Code(65421, 16) case 0x2a => Code(65422, 16) case 0x31 => Code(58, 6) case 0x32 => Code(503, 9)
    case 0x33 => Code(4085, 12) case 0x34 => Code(65423, 16) case 0x35 => Code(65424, 16) case 0x36 => Code(65425, 16)
    case 0x37 => Code(65426, 16) case 0x38 => Code(65427, 16) case 0x39 => Code(65428, 16) case 0x3a => Code(65429, 16)
    case _ => Code(0, 0)
  }

  /** YAC_HT from 0x40 on */
  function YacCode2(k: nat): Code
  {
    match k
    case 0x41 => Code(59, 6) case 0x42 => Code(1016, 10) case 0x43 => Code(65430, 16) case 0x44 => Code(65431, 16)
    case 0x45 => Code(65432, 16) case 0x46 => Code(65433, 16) case 0x47 => Code(65434, 16) case 0x48 => Code(65435, 16)
    case 0x49 => Code(65436, 16) case 0x4a => Code(65437, 16) case 0x51 => Code(122, 7) case 0x52 => Code(2039, 11)
    case 0x53 => Code(65438, 16) case 0x54 => Code(65439, 16) case 0x55 => Code(65440, 16) case 0x56 => Code(65441, 16)
    case 0x57 => Code(65442, 16) case 0x58 => Code(65443, 16) case 0x59 => Code(65444, 16) case 0x5a => Code(65445, 16)
    case 0x61 => Code(123, 7) case 0x62 => Code(4086, 12) case 0x63 => Code(65446, 16) case 0x64 => Code(65447, 16)
    case 0x65 => Code(65448, 16) case 0x66 => Code(65449, 16) case 0x67 => Code(65450, 16) case 0x68 => Code(65451, 16)
    case 0x69 => Code(65452, 16) case 0x6a => Code(65453, 16)
    case _ => Code(0, 0)
  }

  /** YAC_HT from 0x70 on */
  function YacCode3(k: nat): Code
  {
    match k
    case 0x71 => Code(250, 8) case 0x72 => Code(4087, 12) case 0x73 => Code(65454, 16) case 0x74 => Code(65455, 16)
    case 0x75 => Code(65456, 16) case 0x76 => Code(65457, 16) case 0x77 => Code(65458, 16) case 0x78 => Code(65459, 16)
    case 0x79 => Code(65460, 16) case 0x7a => Code(65461, 16) case 0x81 => Code(504, 9) case 0x82 => Code(32704, 15)
    case 0x83 => Code(65462, 16) case 0x84 => Code(65463, 16) case 0x85 => Code(65464, 16) case 0x86 => Code(65465, 16)
    case 0x87 => Code(65466, 16) case 0x88 => Code(65467, 16) case 0x89 => Code(65468, 16) case 0x8a => Code(65469, 16)
    case 0x91 => Code(505, 9) case 0x92 => Code(65470, 16) case 0x93 => Code(65471, 16) case 0x94 => Code(65472, 16)
    case 0x95 => Code(65473, 16) case 0x96 => Code(65474, 16) case 0x97 => Code(65475, 16) case 0x98 => Code(65476, 16)
    case 0x99 => Code(65477, 16) case 0x9a => Code(65478, 16)
    case _ => Code(0, 0)
  }

  /** YAC_HT from 0xa0 on */
  function YacCode4(k: nat): Code
  {
    match k
    case 0xa1 => Code(506, 9) case 0xa2 => Code(65479, 16) case 0xa3 => Code(65480, 16) case 0xa4 => Code(65481, 16)
    case 0xa5 => Code(65482, 16) case 0xa6 => Code(65483, 16) case 0xa7 => Code(65484, 16) case 0xa8 => Code(65485, 16)
    case 0xa9 => Code(65486, 16) case 0xaa => Code(65487, 16) case 0xb1 => Code(1017, 10) case 0xb2 => Code(65488, 16)
    case 0xb3 => Code(65489, 16) case 0xb4 => Code(65490, 16) case 0xb5 => Code(65491, 16) case 0xb6 => Code(65492, 16)
    case 0xb7 => Code(65493, 16) case 0xb8 => Code(65494, 16) case 0xb9 => Code(65495, 16) case 0xba => Code(65496, 16)
    case 0xc1 => Code(1018, 10) case 0xc2 => Code(65497, 16) case 0xc3 => Code(65498, 16) case 0xc4 => Code(65499, 16)
    case 0xc5 => Code(65500, 16) case 0xc6 => Code(65501, 16) case 0xc7 => Code(65502, 16) case 0xc8 => Code(65503, 16)
    case 0xc9 => Code(65504, 16) case 0xca => Code(65505, 16)
    case _ => Code(0, 0)
  }

  /** YAC_HT from 0xd0 on */
  function YacCode5(k: nat): Code
  {
    match k
    case 0xd1 => Code(2040, 11) case 0xd2 => Code(65506, 16) case 0xd3 => Code(65507, 16) case 0xd4 => Code(65508, 16)
    case 0xd5 => Code(65509, 16) case 0xd6 => Code(65510, 16) case 0xd7 => Code(65511, 16) case 0xd8 => Code(65512, 16)
    case 0xd9 => Code(65513, 16) case 0xda => Code(65514, 16) case 0xe1 => Code(65515, 16) case 0xe2 => Code(65516, 16)
    case 0xe3 => Code(65517, 16) case 0xe4 => Code(65518, 16) case 0xe5 => Code(65519, 16) case 0xe6 => Code(65520, 16)
    case 0xe7 => Code(65521, 16) case 0xe8 => Code(65522, 16) case 0xe9 => Code(65523, 16) case 0xea => Code(65524, 16)
    case 0xf0 => Code(2041, 11) case 0xf1 => Code(65525, 16) case 0xf2 => Code(65526, 16) case 0xf3 => Code(65527, 16)
    case 0xf4 => Code(65528, 16) case 0xf5 => Code(65529, 16) case 0xf6 => Code(65530, 16) case 0xf7 => Code(65531, 16)
    case 0xf8 => Code(65532, 16) case 0xf9 => Code(65533, 16) case 0xfa => Code(65534, 16)
    case _ => Code(0, 0)
  }

  function YacCode(k: nat): Code
  {
    if k < 0x20 then YacCode0(k) else if k < 0x40 then YacCode1(k) else if k < 0x70 then YacCode2(k)
    else if k < 0xa0 then YacCode3(k) else if k < 0xd0 then YacCode4(k) else YacCode5(k)
  }

  function YacValues(): (r: seq<byte>)
    ensures |r| == 256
  {
    seq(256, k requires 0 <= k => YacValue(k))
  }

  function YacCodes(): (r: seq<Code>)
    ensures |r| == 256
  {
    seq(256, k requires 0 <= k => YacCode(k))
  }

  lemma YacTotals()
    ensures |YacCount()| == 16 && |YacTotal()| == 17 && Totals(YacCount(), YacTotal())
  {
  }

  lemma YacFirsts()
    ensures |YacCount()| == 16 && |YacFirst()| == 17 && Firsts(YacCount(), YacFirst())
  {
  }

  lemma YacListed()
    ensures Listed(YacCount(), YacTotal(), YacFirst())
  {
    hide YacCount, YacTotal, YacFirst, Totals, Firsts;
    YacTotals();
    YacFirsts();
  }

  lemma YacRight0(v: nat) returns (i: nat)
    requires AcValue(v) && 0x0 <= v < 0x20
    ensures EntryIs(YacTotal(), YacFirst(), YacCode(v), i) && i < 256 && YacValue(i) as int == v
  {
    var e := YacCode0(v);
    i := YacTotal()[e.len - 1] + e.word - YacFirst()[e.len];
  }

  lemma YacRight1(v: nat) returns (i: nat)
    requires AcValue(v) && 0x20 <= v < 0x40
    ensures EntryIs(YacTotal(), YacFirst(), YacCode(v), i) && i < 256 && YacValue(i) as int == v
  {
    var e := YacCode1(v);
    i := YacTotal()[e.len - 1] + e.word - YacFirst()[e.len];
  }

  lemma YacRight2(v: nat) returns (i: nat)
    requires AcValue(v) && 0x40 <= v < 0x70
    ensures EntryIs(YacTotal(), YacFirst(), YacCode(v), i) && i < 256 && YacValue(i) as int == v
  {
    var e := YacCode2(v);
    i := YacTotal()[e.len - 1] + e.word - YacFirst()[e.len];
  }

  lemma YacRight3(v: nat) returns (i: nat)
    requires AcValue(v) && 0x70 <= v < 0xa0
    ensures EntryIs(YacTotal(), YacFirst(), YacCode(v), i) && i < 256 && YacValue(i) as int == v
  {
    var e := YacCode3(v);
    i := YacTotal()[e.len - 1] + e.word - YacFirst()[e.len];
  }

  lemma YacRight4(v: nat) returns (i: nat)
    requires AcValue(v) && 0xa0 <= v < 0xd0
    ensures EntryIs(YacTotal(), YacFirst(), YacCode(v), i) && i < 256 && YacValue(i) as int == v
  {
    var e := YacCode4(v);
    i := YacTotal()[e.len - 1] + e.word - YacFirst()[e.len];
  }

  lemma YacRight5(v: nat) returns (i: nat)
    requires AcValue(v) && 0xd0 <= v < 0x100
    ensures EntryIs(YacTotal(), YacFirst(), YacCode(v), i) && i < 256 && YacValue(i) as int == v
  {
    var e := YacCode5(v);
    i := YacTotal()[e.len - 1] + e.word - YacFirst()[e.len];
  }

  lemma YacRight(v: nat) returns (i: nat)
    requires AcValue(v)
    ensures EntryIs(YacTotal(), YacFirst(), YacCode(v), i) && i < 256 && YacValue(i) as int == v
  {
    hide EntryIs, YacCode, YacValue, YacTotal, YacFirst;
    if v < 0x20 {
      i := YacRight0(v);
    } else if v < 0x40 {
      i := YacRight1(v);
    } else if v < 0x70 {
      i := YacRight2(v);
    } else if v < 0xa0 {
      i := YacRight3(v);
    } else if v < 0xd0 {
      i := YacRight4(v);
    } else {
      i := YacRight5(v);
    }
  }

  lemma YacAgrees()
    ensures AcTable(YacCodes(), Huff(Sizes(YacCount(), 16), YacValues()))
  {
    hide YacCount, YacTotal, YacFirst, YacValue, YacCode, EntryIs, Agrees, Listed, SizesOk, Fitting, Sizes;
    YacListed();
    YacSums();
    ListedFits(YacCount(), YacTotal(), YacFirst());
    forall v: nat | AcValue(v) ensures Agrees(YacCodes(), Huff(Sizes(YacCount(), 16), YacValues()), v) {
      var i := YacRight(v);
      EntryAgrees(YacCount(), YacTotal(), YacFirst(), YacValues(), YacCodes(), v, i);
    }
  }

  lemma YacSums()
    ensures |YacCount()| == 16 && |YacTotal()| == |YacFirst()| == 17
    ensures YacTotal()[16] == 162 && YacFirst()[16] + YacCount()[15] <= 0x1_0000
  {
  }

  // ---- the chrominance DC tables ----

  /** std_dc_chrominance_nrcodes */
  function UvdcCount(): seq<nat> { [0, 3, 1, 1, 1, 1, 1, 1, 1, 1, 1, 0, 0, 0, 0, 0] }

  function UvdcTotal(): seq<nat> { [0, 0, 3, 4, 5, 6, 7, 8, 9, 10, 11, 12, 12, 12, 12, 12, 12] }

  function UvdcFirst(): seq<nat> { [0, 0, 0, 6, 14, 30, 62, 126, 254, 510, 1022, 2046, 4094, 8188, 16376, 32752,
                     65504] }

  /** std_dc_chrominance_values */
  function UvdcValue(k: nat): byte
  {
    match k
    case 0 => 0x00 case 1 => 0x01 case 2 => 0x02 case 3 => 0x03 case 4 => 0x04 case 5 => 0x05
    case 6 => 0x06 case 7 => 0x07 case 8 => 0x08 case 9 => 0x09 case 10 => 0x0a case 11 => 0x0b
    case _ => 0
  }

  /** UVDC_HT */
  function UvdcCode(k: nat): Code
  {
    match k
    case 0x00 => Code(0, 2) case 0x01 => Code(1, 2) case 0x02 => Code(2, 2) case 0x03 => Code(6, 3)
    case 0x04 => Code(14, 4) case 0x05 => Code(30, 5) case 0x06 => Code(62, 6) case 0x07 => Code(126, 7)
    case 0x08 => Code(254, 8) case 0x09 => Code(510, 9) case 0x0a => Code(1022, 10) case 0x0b => Code(2046, 11)
    case _ => Code(0, 0)
  }

  function UvdcValues(): (r: seq<byte>)
    ensures |r| == 256
  {
    seq(256, k requires 0 <= k => UvdcValue(k))
  }

  function UvdcCodes(): (r: seq<Code>)
    ensures |r| == 256
  {
    seq(256, k requires 0 <= k => UvdcCode(k))
  }

  lemma UvdcTotals()
    ensures |UvdcCount()| == 16 && |UvdcTotal()| == 17 && Totals(UvdcCount(), UvdcTotal())
  {
  }

  lemma UvdcFirsts()
    ensures |UvdcCount()| == 16 && |UvdcFirst()| == 17 && Firsts(UvdcCount(), UvdcFirst())
  {
  }

  lemma UvdcListed()
    ensures Listed(UvdcCount(), UvdcTotal(), UvdcFirst())
  {
    hide UvdcCount, UvdcTotal, UvdcFirst, Totals, Firsts;
    UvdcTotals();
    UvdcFirsts();
  }

  lemma UvdcRight(v: nat) returns (i: nat)
    requires DcValue(v)
    ensures EntryIs(UvdcTotal(), UvdcFirst(), UvdcCode(v), i) && i < 256 && UvdcValue(i) as int == v
  {
    var e := UvdcCode(v);
    i := UvdcTotal()[e.len - 1] + e.word - UvdcFirst()[e.len];
  }

  lemma UvdcAgrees()
    ensures DcTable(UvdcCodes(), Huff(Sizes(UvdcCount(), 16), UvdcValues()))
  {
    hide UvdcCount, UvdcTotal, UvdcFirst, UvdcValue, UvdcCode, EntryIs, Agrees, Listed, SizesOk, Fitting, Sizes;
    UvdcListed();
    UvdcSums();
    ListedFits(UvdcCount(), UvdcTotal(), UvdcFirst());
    forall v: nat | DcValue(v) ensures Agrees(UvdcCodes(), Huff(Sizes(UvdcCount(), 16), UvdcValues()), v) {
      var i := UvdcRight(v);
      EntryAgrees(UvdcCount(), UvdcTotal(), UvdcFirst(), UvdcValues(), UvdcCodes(), v, i);
    }
  }

  lemma UvdcSums()
    ensures |UvdcCount()| == 16 && |UvdcTotal()| == |UvdcFirst()| == 17
    ensures UvdcTotal()[16] == 12 && UvdcFirst()[16] + UvdcCount()[15] <= 0x1_0000
  {
  }

  // ---- the chrominance AC tables ----

  /** std_ac_chrominance_nrcodes */
  function UvacCount(): seq<nat> { [0, 2, 1, 2, 4, 4, 3, 4, 7, 5, 4, 4, 0, 1, 2, 119] }

  function UvacTotal(): seq<nat> { [0, 0, 2, 3, 5, 9, 13, 16, 20, 27, 32, 36, 40, 40, 41, 43, 162] }

  function UvacFirst(): seq<nat> { [0, 0, 0, 4, 10, 24, 56, 120, 246, 500, 1014, 2038, 4084, 8176, 16352, 32706,
                     65416] }

  /** std_ac_chrominance_values from 0 on */
  function UvacValue0(k: nat): byte
  {
    match k
    case 0 => 0x00 case 1 => 0x01 case 2 => 0x02 case 3 => 0x03 case 4 => 0x11 case 5 => 0x04 case 6 => 0x05
    case 7 => 0x21 case 8 => 0x31 case 9 => 0x06 case 10 => 0x12 case 11 => 0x41 case 12 => 0x51 case 13 => 0x07
    case 14 => 0x61 case 15 => 0x71 case 16 => 0x13 case 17 => 0x22 case 18 => 0x32 case 19 => 0x81 case 20 => 0x08
    case 21 => 0x14 case 22 => 0x42 case 23 => 0x91 case 24 => 0xa1 case 25 => 0xb1 case 26 => 0xc1 case 27 => 0x09
    case 28 => 0x23 case 29 => 0x33 case 30 => 0x52 case 31 => 0xf0 case 32 => 0x15 case 33 => 0x62 case 34 => 0x72
    case 35 => 0xd1 case 36 => 0x0a case 37 => 0x16 case 38 => 0x24 case 39 => 0x34 case 40 => 0xe1 case 41 => 0x25
    case 42 => 0xf1 case 43 => 0x17 case 44 => 0x18 case 45 => 0x19 case 46 => 0x1a case 47 => 0x26
    case _ => 0
  }

  /** std_ac_chrominance_values from 48 on */
  function UvacValue1(k: nat): byte
  {
    match k
    case 48 => 0x27 case 49 => 0x28 case 50 => 0x29 case 51 => 0x2a case 52 => 0x35 case 53 => 0x36 case 54 => 0x37
    case 55 => 0x38 case 56 => 0x39 case 57 => 0x3a case 58 => 0x43 case 59 => 0x44 case 60 => 0x45 case 61 => 0x46
    case 62 => 0x47 case 63 => 0x48 case 64 => 0x49 case 65 => 0x4a case 66 => 0x53 case 67 => 0x54 case 68 => 0x55
    case 69 => 0x56 case 70 => 0x57 case 71 => 0x58 case 72 => 0x59 case 73 => 0x5a case 74 => 0x63 case 75 => 0x64
    case 76 => 0x65 case 77 => 0x66 case 78 => 0x67 case 79 => 0x68 case 80 => 0x69 case 81 => 0x6a case 82 => 0x73
    case 83 => 0x74 case 84 => 0x75 case 85 => 0x76 case 86 => 0x77 case 87 => 0x78 case 88 => 0x79 case 89 => 0x7a
    case 90 => 0x82 case 91 => 0x83 case 92 => 0x84 case 93 => 0x85 case 94 => 0x86 case 95 => 0x87
    case _ => 0
  }

  /** std_ac_chrominance_values from 96 on */
  function UvacValue2(k: nat): byte
  {
    match k
    case 96 => 0x88 case 97 => 0x89 case 98 => 0x8a case 99 => 0x92 case 100 => 0x93 case 101 => 0x94
    case 102 => 0x95 case 103 => 0x96 case 104 => 0x97 case 105 => 0x98 case 106 => 0x99 case 107 => 0x9a
    case 108 => 0xa2 case 109 => 0xa3 case 110 => 0xa4 case 111 => 0xa5 case 112 => 0xa6 case 113 => 0xa7
    case 114 => 0xa8 case 115 => 0xa9 case 116 => 0xaa case 117 => 0xb2 case 118 => 0xb3 case 119 => 0xb4
    case 120 => 0xb5 case 121 => 0xb6 case 122 => 0xb7 case 123 => 0xb8 case 124 => 0xb9 case 125 => 0xba
    case 126 => 0xc2 case 127 => 0xc3 case 128 => 0xc4 case 129 => 0xc5 case 130 => 0xc6 case 131 => 0xc7
    case 132 => 0xc8 case 133 => 0xc9 case 134 => 0xca case 135 => 0xd2 case 136 => 0xd3 case 137 => 0xd4
    case 138 => 0xd5 case 139 => 0xd6 case 140 => 0xd7 case 141 => 0xd8 case 142 => 0xd9 case 143 => 0xda
    case _ => 0
  }

  /** std_ac_chrominance_values from 144 on */
  function UvacValue3(k: nat): byte
  {
    match k
    case 144 => 0xe2 case 145 => 0xe3 case 146 => 0xe4 case 147 => 0xe5 case 148 => 0xe6 case 149 => 0xe7
    case 150 => 0xe8 case 151 => 0xe9 case 152 => 0xea case 153 => 0xf2 case 154 => 0xf3 case 155 => 0xf4
    case 156 => 0xf5 case 157 => 0xf6 case 158 => 0xf7 case 159 => 0xf8 case 160 => 0xf9 case 161 => 0xfa
    case _ => 0
  }

  function UvacValue(k: nat): byte
  {
    if k < 48 then UvacValue0(k) else if k < 96 then UvacValue1(k) else if k < 144 then UvacValue2(k) else UvacValue3(k)
  }

  /** UVAC_HT from 0x0 on */
  function UvacCode0(k: nat): Code
  {
    match k
    case 0x00 => Code(0, 2) case 0x01 => Code(1, 2) case 0x02 => Code(4, 3) case 0x03 => Code(10, 4)
    case 0x04 => Code(24, 5) case 0x05 => Code(25, 5) case 0x06 => Code(56, 6) case 0x07 => Code(120, 7)
    case 0x08 => Code(500, 9) case 0x09 => Code(1014, 10) case 0x0a => Code(4084, 12) case 0x11 => Code(11, 4)
    case 0x12 => Code(57, 6) case 0x13 => Code(246, 8) case 0x14 => Code(501, 9) case 0x15 => Code(2038, 11)
    case 0x16 => Code(4085, 12) case 0x17 => Code(65416, 16) case 0x18 => Code(65417, 16) case 0x19 => Code(65418, 16)
    case 0x1a => Code(65419, 16)
    case _ => Code(0, 0)
  }

  /** UVAC_HT from 0x20 on */
  function UvacCode1(k: nat): Code
  {
    match k
    case 0x21 => Code(26, 5) case 0x22 => Code(247, 8) case 0x23 => Code(1015, 10) case 0x24 => Code(4086, 12)
    case 0x25 => Code(32706, 15) case 0x26 => Code(65420, 16) case 0x27 => Code(65421, 16) case 0x28 => Code(65422, 16)
    case 0x29 => Code(65423, 16) case 0x2a => Code(65424, 16) case 0x31 => Code(27, 5) case 0x32 => Code(248, 8)
    case 0x33 => Code(1016, 10) case 0x34 => Code(4087, 12) case 0x35 => Code(65425, 16) case 0x36 => Code(65426, 16)
    case 0x37 => Code(65427, 16) case 0x38 => Code(65428, 16) case 0x39 => Code(65429, 16) case 0x3a => Code(65430, 16)
    case _ => Code(0, 0)
  }

  /** UVAC_HT from 0x40 on */
  function UvacCode2(k: nat): Code
  {
    match k
    case 0x41 => Code(58, 6) case 0x42 => Code(502, 9) case 0x43 => Code(65431, 16) case 0x44 => Code(65432, 16)
    case 0x45 => Code(65433, 16) case 0x46 => Code(65434, 16) case 0x47 => Code(65435, 16) case 0x48 => Code(65436, 16)
    case 0x49 => Code(65437, 16) case 0x4a => Code(65438, 16) case 0x51 => Code(59, 6) case 0x52 => Code(1017, 10)
    case 0x53 => Code(65439, 16) case 0x54 => Code(65440, 16) case 0x55 => Code(65441, 16) case 0x56 => Code(65442, 16)
    case 0x57 => Code(65443, 16) case 0x58 => Code(65444, 16) case 0x59 => Code(65445, 16) case 0x5a => Code(65446, 16)
    case 0x61 => Code(121, 7) case 0x62 => Code(2039, 11) case 0x63 => Code(65447, 16) case 0x64 => Code(65448, 16)
    case 0x65 => Code(65449, 16) case 0x66 => Code(65450, 16) case 0x67 => Code(65451, 16) case 0x68 => Code(65452, 16)
    case 0x69 => Code(65453, 16) case 0x6a => Code(65454, 16)
    case _ => Code(0, 0)
  }

  /** UVAC_HT from 0x70 on */
  function UvacCode3(k: nat): Code
  {
    match k
    case 0x71 => Code(122, 7) case 0x72 => Code(2040, 11) case 0x73 => Code(65455, 16) case 0x74 => Code(65456, 16)
    case 0x75 => Code(65457, 16) case 0x76 => Code(65458, 16) case 0x77 => Code(65459, 16) case 0x78 => Code(65460, 16)
    case 0x79 => Code(65461, 16) case 0x7a => Code(65462, 16) case 0x81 => Code(249, 8) case 0x82 => Code(65463, 16)
    case 0x83 => Code(65464, 16) case 0x84 => Code(65465, 16) case 0x85 => Code(65466, 16) case 0x86 => Code(65467, 16)
    case 0x87 => Code(65468, 16) case 0x88 => Code(65469, 16) case 0x89 => Code(65470, 16) case 0x8a => Code(65471, 16)
    case 0x91 => Code(503, 9) case 0x92 => Code(65472, 16) case 0x93 => Code(65473, 16) case 0x94 => Code(65474, 16)
    case 0x95 => Code(65475, 16) case 0x96 => Code(65476, 16) case 0x97 => Code(65477, 16) case 0x98 => Code(65478, 16)
    case 0x99 => Code(65479, 16) case 0x9a => Code(65480, 16)
    case _ => Code(0, 0)
  }

  /** UVAC_HT from 0xa0 on */
  function UvacCode4(k: nat): Code
  {
    match k
    case 0xa1 => Code(504, 9) case 0xa2 => Code(65481, 16) case 0xa3 => Code(65482, 16) case 0xa4 => Code(65483, 16)
    case 0xa5 => Code(65484, 16) case 0xa6 => Code(65485, 16) case 0xa7 => Code(65486, 16) case 0xa8 => Code(65487, 16)
    case 0xa9 => Code(65488, 16) case 0xaa => Code(65489, 16) case 0xb1 => Code(505, 9) case 0xb2 => Code(65490, 16)
    case 0xb3 => Code(65491, 16) case 0xb4 => Code(65492, 16) case 0xb5 => Code(65493, 16) case 0xb6 => Code(65494, 16)
    case 0xb7 => Code(65495, 16) case 0xb8 => Code(65496, 16) case 0xb9 => Code(65497, 16) case 0xba => Code(65498, 16)
    case 0xc1 => Code(506, 9) case 0xc2 => Code(65499, 16) case 0xc3 => Code(65500, 16) case 0xc4 => Code(65501, 16)
    case 0xc5 => Code(65502, 16) case 0xc6 => Code(65503, 16) case 0xc7 => Code(65504, 16) case 0xc8 => Code(65505, 16)
    case 0xc9 => Code(65506, 16) case 0xca => Code(65507, 16)
    case _ => Code(0, 0)
  }

  /** UVAC_HT from 0xd0 on */
  function UvacCode5(k: nat): Code
  {
    match k
    case 0xd1 => Code(2041, 11) case 0xd2 => Code(65508, 16) case 0xd3 => Code(65509, 16) case 0xd4 => Code(65510, 16)
    case 0xd5 => Code(65511, 16) case 0xd6 => Code(65512, 16) case 0xd7 => Code(65513, 16) case 0xd8 => Code(65514, 16)
    case 0xd9 => Code(65515, 16) case 0xda => Code(65516, 16) case 0xe1 => Code(16352, 14) case 0xe2 => Code(65517, 16)
    case 0xe3 => Code(65518, 16) case 0xe4 => Code(65519, 16) case 0xe5 => Code(65520, 16) case 0xe6 => Code(65521, 16)
    case 0xe7 => Code(65522, 16) case 0xe8 => Code(65523, 16) case 0xe9 => Code(65524, 16) case 0xea => Code(65525, 16)
    case 0xf0 => Code(1018, 10) case 0xf1 => Code(32707, 15) case 0xf2 => Code(65526, 16) case 0xf3 => Code(65527, 16)
    case 0xf4 => Code(65528, 16) case 0xf5 => Code(65529, 16) case 0xf6 => Code(65530, 16) case 0xf7 => Code(65531, 16)
    case 0xf8 => Code(65532, 16) case 0xf9 => Code(65533, 16) case 0xfa => Code(65534, 16)
    case _ => Code(0, 0)
  }

  function UvacCode(k: nat): Code
  {
    if k < 0x20 then UvacCode0(k) else if k < 0x40 then UvacCode1(k) else if k < 0x70 then UvacCode2(k)
    else if k < 0xa0 then UvacCode3(k) else if k < 0xd0 then UvacCode4(k) else UvacCode5(k)
  }

  function UvacValues(): (r: seq<byte>)
    ensures |r| == 256
  {
    seq(256, k requires 0 <= k => UvacValue(k))
  }

  function UvacCodes(): (r: seq<Code>)
    ensures |r| == 256
  {
    seq(256, k requires 0 <= k => UvacCode(k))
  }

  lemma UvacTotals()
    ensures |UvacCount()| == 16 && |UvacTotal()| == 17 && Totals(UvacCount(), UvacTotal())
  {
  }

  lemma UvacFirsts()
    ensures |UvacCount()| == 16 && |UvacFirst()| == 17 && Firsts(UvacCount(), UvacFirst())
  {
  }

  lemma UvacListed()
    ensures Listed(UvacCount(), UvacTotal(), UvacFirst())
  {
    hide UvacCount, UvacTotal, UvacFirst, Totals, Firsts;
    UvacTotals();
    UvacFirsts();
  }

  lemma UvacRight0(v: nat) returns (i: nat)
    requires AcValue(v) && 0x0 <= v < 0x20
    ensures EntryIs(UvacTotal(), UvacFirst(), UvacCode(v), i) && i < 256 && UvacValue(i) as int == v
  {
    var e := UvacCode0(v);
    i := UvacTotal()[e.len - 1] + e.word - UvacFirst()[e.len];
  }

  lemma UvacRight1(v: nat) returns (i: nat)
    requires AcValue(v) && 0x20 <= v < 0x40
    ensures EntryIs(UvacTotal(), UvacFirst(), UvacCode(v), i) && i < 256 && UvacValue(i) as int == v
  {
    var e := UvacCode1(v);
    i := UvacTotal()[e.len - 1] + e.word - UvacFirst()[e.len];
  }

  lemma UvacRight2(v: nat) returns (i: nat)
    requires AcValue(v) && 0x40 <= v < 0x70
    ensures EntryIs(UvacTotal(), UvacFirst(), UvacCode(v), i) && i < 256 && UvacValue(i) as int == v
  {
    var e := UvacCode2(v);
    i := UvacTotal()[e.len - 1] + e.word - UvacFirst()[e.len];
  }

  lemma UvacRight3(v: nat) returns (i: nat)
    requires AcValue(v) && 0x70 <= v < 0xa0
    ensures EntryIs(UvacTotal(), UvacFirst(), UvacCode(v), i) && i < 256 && UvacValue(i) as int == v
  {
    var e := UvacCode3(v);
    i := UvacTotal()[e.len - 1] + e.word - UvacFirst()[e.len];
  }

  lemma UvacRight4(v: nat) returns (i: nat)
    requires AcValue(v) && 0xa0 <= v < 0xd0
    ensures EntryIs(UvacTotal(), UvacFirst(), UvacCode(v), i) && i < 256 && UvacValue(i) as int == v
  {
    var e := UvacCode4(v);
    i := UvacTotal()[e.len - 1] + e.word - UvacFirst()[e.len];
  }

  lemma UvacRight5(v: nat) returns (i: nat)
    requires AcValue(v) && 0xd0 <= v < 0x100
    ensures EntryIs(UvacTotal(), UvacFirst(), UvacCode(v), i) && i < 256 && UvacValue(i) as int == v
  {
    var e := UvacCode5(v);
    i := UvacTotal()[e.len - 1] + e.word - UvacFirst()[e.len];
  }

  lemma UvacRight(v: nat) returns (i: nat)
    requires AcValue(v)
    ensures EntryIs(UvacTotal(), UvacFirst(), UvacCode(v), i) && i < 256 && UvacValue(i) as int == v
  {
    hide EntryIs, UvacCode, UvacValue, UvacTotal, UvacFirst;
    if v < 0x20 {
      i := UvacRight0(v);
    } else if v < 0x40 {
      i := UvacRight1(v);
    } else if v < 0x70 {
      i := UvacRight2(v);
    } else if v < 0xa0 {
      i := UvacRight3(v);
    } else if v < 0xd0 {
      i := UvacRight4(v);
    } else {
      i := UvacRight5(v);
    }
  }

  lemma UvacAgrees()
    ensures AcTable(UvacCodes(), Huff(Sizes(UvacCount(), 16), UvacValues()))
  {
    hide UvacCount, UvacTotal, UvacFirst, UvacValue, UvacCode, EntryIs, Agrees, Listed, SizesOk, Fitting, Sizes;
    UvacListed();
    UvacSums();
    ListedFits(UvacCount(), UvacTotal(), UvacFirst());
    forall v: nat | AcValue(v) ensures Agrees(UvacCodes(), Huff(Sizes(UvacCount(), 16), UvacValues()), v) {
      var i := UvacRight(v);
      EntryAgrees(UvacCount(), UvacTotal(), UvacFirst(), UvacValues(), UvacCodes(), v, i);
    }
  }

  lemma UvacSums()
    ensures |UvacCount()| == 16 && |UvacTotal()| == |UvacFirst()| == 17
    ensures UvacTotal()[16] == 162 && UvacFirst()[16] + UvacCount()[15] <= 0x1_0000
  {
  }

  /** The writer's tables and those of its file header agree. */
  lemma StandardAgrees()
    ensures TablesAgree(Codes(YdcCodes(), YacCodes(), UvdcCodes(), UvacCodes()),
                        Huffs(Huff(Sizes(YdcCount(), 16), YdcValues()), Huff(Sizes(YacCount(), 16), YacValues()),
                              Huff(Sizes(UvdcCount(), 16), UvdcValues()), Huff(Sizes(UvacCount(), 16), UvacValues())))
  {
    hide DcTable, AcTable;
    YdcAgrees();
    YacAgrees();
    UvdcAgrees();
    UvacAgrees();
  }

  /** A table definition of the header: the counts, then the values. */
  method ReadTable(count: seq<nat>, values: seq<byte>) returns (h: JpegTable)
    requires |count| == 16 && |values| == 256 && |Sizes(count, 16)| <= 255
    requires SizesOk(Sizes(count, 16)) && Fitting(Sizes(count, 16))
    ensures fresh(h.Repr()) && h.Built() && HuffOf(h) == Huff(Sizes(count, 16), values)
  {
    hide SizesOk, Fitting, Sizes, JpegTable.RowsBelow, JpegTable.FastBuilt, JpegTable.SizesListed;
    h := new JpegTable();
    var ok := h.Build(count);
    for i := 0 to 256
      invariant h.Built() && h.sizes == Sizes(count, 16) && h.values[..i] == values[..i]
    {
      SetValue(h, i, values[i]);
    }
    assert h.values[..256] == h.values[..] && values[..256] == values;
  }

  method SetValue(h: JpegTable, i: nat, v: byte)
    requires h.Built() && i < 256
    modifies h.values
    ensures h.Built() && h.values[..i + 1] == old(h.values[..i]) + [v]
  {
    hide SizesOk, Fitting, LengthRow, UpTo, FastFilled;
    h.values[i] := v;
  }

  /** Blocks in zigzag order through the writer's tables, and the reader's tables built from the header. */
  method ReadBack(units: seq<Unit>, dq: seq<seq<nat>>) returns (blocks: seq<seq<int>>)
    requires ScanOk(units, [0, 0, 0]) && Quantisers(dq) && Shaped(units)
    ensures AllRestored(units, dq, blocks)
  {
    hide ScanOk, AllRestored, Shaped, Sizes, SizesOk, Fitting, YdcCount, YacCount, UvdcCount, UvacCount,
      JpegTable.Built, Huff.Valid, YdcValues, YacValues, UvdcValues, UvacValues, YdcCodes, YacCodes, UvdcCodes,
      UvacCodes, DcTable, AcTable, Decoder.Built;
    StandardAgrees();
    StandardSizes();
    var ydc := ReadTable(YdcCount(), YdcValues());
    var yac := ReadTable(YacCount(), YacValues());
    var uvdc := ReadTable(UvdcCount(), UvdcValues());
    var uvac := ReadTable(UvacCount(), UvacValues());
    var d := new Decoder(ydc, yac, uvdc, uvac);
    blocks := WriteAndRead(Codes(YdcCodes(), YacCodes(), UvdcCodes(), UvacCodes()), d, units, dq);
  }

  // ---- natural order ----

  /** The quantised coefficients of a block in natural order, and its component. */
  datatype Block = Block(comp: nat, coefs: seq<int>)
  {
    predicate Valid() { comp < 3 && |coefs| == 64 }

    function InScan(): (u: Unit)
      requires Valid()
      ensures u.comp == comp && |u.du| == 64
    {
      Unit(comp, seq(64, m requires 0 <= m < 64 => coefs[Dezigzag(m)]))
    }

    lemma InScanIsZigZag()
      requires Valid()
      ensures InZigZag(coefs, InScan().du)
    {
      hide Dezigzag, ZigZag;
      forall j | 0 <= j < 64 ensures InScan().du[ZigZag(j)] == coefs[j] {
        ZigZagUndone(j);
      }
    }
  }

  predicate AllBlocks(blocks: seq<Block>) { forall i :: 0 <= i < |blocks| ==> blocks[i].Valid() }

  function Units(blocks: seq<Block>): (r: seq<Unit>)
    requires AllBlocks(blocks)
    ensures |r| == |blocks| && forall i :: 0 <= i < |r| ==> r[i] == blocks[i].InScan()
    ensures Shaped(r)
  {
    seq(|blocks|, i requires 0 <= i < |blocks| => blocks[i].InScan())
  }

  /** The loop that quantises, from the rounded values on: j runs in natural order. */
  method Arrange(b: Block) returns (u: Unit)
    requires b.Valid()
    ensures u == b.InScan()
  {
    hide Dezigzag, ZigZag;
    var du := new int[64](_ => 0);
    for j := 0 to 64
      invariant forall m :: 0 <= m < 64 && Dezigzag(m) < j ==> du[m] == b.coefs[Dezigzag(m)]
    {
      du[ZigZag(j)] := b.coefs[j];
      ZigZagUndone(j);
      forall m | 0 <= m < 64 && Dezigzag(m) == j ensures m == ZigZag(j) {
        DezigzagUndone(m);
      }
    }
    u := Unit(b.comp, du[..]);
  }

  /**
    The writer's own tables, built by the reader from the header: any blocks with DC
    differences below 2^11 and AC values below 2^10 come back, every coefficient in its own
    place and times its quantiser.
  */
  method StandardRoundTrip(blocks: seq<Block>, dq: seq<seq<nat>>) returns (out: seq<seq<int>>)
    requires AllBlocks(blocks) && Quantisers(dq) && ScanOk(Units(blocks), [0, 0, 0])
    ensures |out| == |blocks| && forall i :: 0 <= i < |out| ==> Scaled(blocks[i], dq, out[i])
  {
    hide ScanOk, Block.InScan, Scaled;
    var units := [];
    for i := 0 to |blocks|
      invariant units == Units(blocks)[..i]
    {
      var u := Arrange(blocks[i]);
      units := units + [u];
    }
    assert units == Units(blocks);
    out := ReadBack(units, dq);
    forall i | 0 <= i < |out| ensures Scaled(blocks[i], dq, out[i]) {
      ComesBack(blocks[i], dq, out[i]);
    }
  }

  predicate Scaled(b: Block, dq: seq<seq<nat>>, data: seq<int>)
    requires b.Valid() && Quantisers(dq)
  {
    |data| == 64 && forall j :: 0 <= j < 64 ==> Stored(data[j], b.coefs[j] * dq[b.comp][j])
  }

  lemma ComesBack(b: Block, dq: seq<seq<nat>>, data: seq<int>)
    requires b.Valid() && Quantisers(dq) && data == Restored(b.InScan().du, dq[b.comp])
    ensures Scaled(b, dq, data)
  {
    hide Block.InScan, Stored, InZigZag, Placed, SetCoef;
    b.InScanIsZigZag();
    forall j | 0 <= j < 64 ensures Stored(data[j], b.coefs[j] * dq[b.comp][j]) {
      CoefficientsRestored(b.coefs, b.InScan().du, dq[b.comp], j);
    }
  }

  predicate Buildable(count: seq<nat>)
  {
    |count| == 16 && |Sizes(count, 16)| <= 255 && SizesOk(Sizes(count, 16)) && Fitting(Sizes(count, 16))
  }

  lemma StandardSizes()
    ensures Buildable(YdcCount()) && Buildable(YacCount()) && Buildable(UvdcCount()) && Buildable(UvacCount())
  {
    hide YdcCount, YacCount, UvdcCount, UvacCount, Sizes, SizesOk, Fitting, Listed;
    YdcListed();
    YacListed();
    UvdcListed();
    UvacListed();
    YdcSums();
    YacSums();
    UvdcSums();
    UvacSums();
    ListedFits(YdcCount(), YdcTotal(), YdcFirst());
    ListedFits(YacCount(), YacTotal(), YacFirst());
    ListedFits(UvdcCount(), UvdcTotal(), UvdcFirst());
    ListedFits(UvacCount(), UvacTotal(), UvacFirst());
  }
}
