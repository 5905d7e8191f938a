/** The run-length coder of Radiance scanlines: stbiw__write_hdr_scanline from RGBE bytes on. */
module HdrWrite {
  import opened Bits

  /** A dump of bytes, or one byte repeated. */
  datatype Packet = Dump(data: seq<byte>) | Run(len: nat, value: byte)
  {
    predicate Valid()
    {
      match this { case Dump(d) => 1 <= |d| <= 128 case Run(n, _) => 1 <= n <= 127 }
    }

    /** stbiw__write_dump_data and stbiw__write_run_data */
    function Bytes(): seq<byte>
    {
      match this { case Dump(d) => [(|d| % 256) as byte] + d case Run(n, v) => [((n + 128) % 256) as byte, v] }
    }

    function Meaning(): seq<byte>
    {
      match this { case Dump(d) => d case Run(n, v) => Same(v, n) }
    }
  }

  function Same(v: byte, n: nat): (r: seq<byte>)
    ensures |r| == n && forall i :: 0 <= i < n ==> r[i] == v
  {
    seq(n, _ => v)
  }

  predicate AllValid(ps: seq<Packet>) { forall i :: 0 <= i < |ps| ==> ps[i].Valid() }

  function Stream(ps: seq<Packet>): seq<byte>
  {
    if ps == [] then [] else ps[0].Bytes() + Stream(ps[1..])
  }

  function Meanings(ps: seq<Packet>): seq<byte>
  {
    if ps == [] then [] else ps[0].Meaning() + Meanings(ps[1..])
  }

  lemma {:induction false} PacketsAppend(a: seq<Packet>, b: seq<Packet>)
    ensures Stream(a + b) == Stream(a) + Stream(b)
    ensures Meanings(a + b) == Meanings(a) + Meanings(b)
    decreases |a|
  {
    hide Packet.Bytes, Packet.Meaning;
    if a == [] {
      assert a + b == b;
    } else {
      assert (a + b)[1..] == a[1..] + b;
      PacketsAppend(a[1..], b);
      assert Stream(a) + Stream(b) == a[0].Bytes() + (Stream(a[1..]) + Stream(b));
      assert Meanings(a) + Meanings(b) == a[0].Meaning() + (Meanings(a[1..]) + Meanings(b));
    }
  }

  /** Valid packets that stand for comp[x..y] and take the given number of bytes. */
  ghost predicate Packed(ps: seq<Packet>, out: seq<byte>, comp: seq<byte>, x: nat, y: nat)
    requires x <= y <= |comp|
  {
    AllValid(ps) && out == Stream(ps) && Meanings(ps) == comp[x..y]
  }

  lemma PackedNone(comp: seq<byte>, x: nat)
    requires x <= |comp|
    ensures Packed([], [], comp, x, x)
  {
  }

  lemma PackedAppend(a: seq<Packet>, u: seq<byte>, b: seq<Packet>, v: seq<byte>, comp: seq<byte>, x: nat, y: nat,
                     z: nat)
    requires x <= y <= z <= |comp| && Packed(a, u, comp, x, y) && Packed(b, v, comp, y, z)
    ensures Packed(a + b, u + v, comp, x, z)
  {
    hide Stream, Meanings, Packet.Valid;
    PacketsAppend(a, b);
    assert comp[x..z] == comp[x..y] + comp[y..z];
  }

  lemma PackedOne(p: Packet, comp: seq<byte>, x: nat, y: nat)
    requires x <= y <= |comp| && p.Valid() && p.Meaning() == comp[x..y]
    ensures Packed([p], p.Bytes(), comp, x, y)
  {
    hide Packet.Valid, Packet.Bytes, Packet.Meaning;
    assert Stream([p]) == p.Bytes() + Stream([]);
    assert Meanings([p]) == p.Meaning() + Meanings([]);
  }

  /** n / d rounded up. */
  function Ceil(n: nat, d: nat): nat
    requires d > 0
  {
    (n + d - 1) / d
  }

  // ---- the splitter ----

  predicate RunStarts(comp: seq<byte>, r: nat)
  {
    r + 2 < |comp| && comp[r] == comp[r + 1] == comp[r + 2]
  }

  /** Where the first run of three from x on starts, or the end. */
  method FindRun(comp: seq<byte>, x: nat) returns (r: nat)
    requires x <= |comp|
    ensures x <= r <= |comp| && forall k :: x <= k < r ==> !RunStarts(comp, k)
    ensures r < |comp| ==> RunStarts(comp, r)
  {
    r := x;
    while r + 2 < |comp|
      invariant x <= r <= |comp| && forall k :: x <= k < r ==> !RunStarts(comp, k)
    {
      if comp[r] == comp[r + 1] && comp[r] == comp[r + 2] {
        break;
      }
      r := r + 1;
    }
    if r + 2 >= |comp| {
      r := |comp|;
    }
  }

  /** Dumps of at most 128 bytes. */
  method WriteDumps(comp: seq<byte>, x: nat, r: nat) returns (out: seq<byte>, ghost ps: seq<Packet>)
    requires x <= r <= |comp|
    ensures Packed(ps, out, comp, x, r) && |out| == r - x + Ceil(r - x, 128)
  {
    hide Packed, Stream, Meanings;
    out, ps := [], [];
    PackedNone(comp, x);
    var y := x;
    while y < r
      invariant x <= y <= r && Packed(ps, out, comp, x, y)
      invariant |out| == y - x + Ceil(y - x, 128) && (y < r ==> (y - x) % 128 == 0)
    {
      var len := if r - y > 128 then 128 else r - y;
      var data := comp[y..y + len];
      PackedOne(Dump(data), comp, y, y + len);
      PackedAppend(ps, out, [Dump(data)], [(len % 256) as byte] + data, comp, x, y, y + len);
      out := out + ([(len % 256) as byte] + data);
      ps := ps + [Dump(data)];
      y := y + len;
    }
  }

  /** Runs of at most 127 bytes. */
  method WriteRuns(comp: seq<byte>, x: nat, r: nat) returns (out: seq<byte>, ghost ps: seq<Packet>)
    requires x < r <= |comp| && forall k :: x <= k < r ==> comp[k] == comp[x]
    ensures Packed(ps, out, comp, x, r) && |out| == 2 * Ceil(r - x, 127)
  {
    hide Packed, Stream, Meanings;
    out, ps := [], [];
    PackedNone(comp, x);
    var y := x;
    while y < r
      invariant x <= y <= r && Packed(ps, out, comp, x, y)
      invariant |out| == 2 * Ceil(y - x, 127) && (y < r ==> (y - x) % 127 == 0)
    {
      var len := if r - y > 127 then 127 else r - y;
      PackedOne(Run(len, comp[y]), comp, y, y + len);
      PackedAppend(ps, out, [Run(len, comp[y])], [((len + 128) % 256) as byte, comp[y]], comp, x, y, y + len);
      out := out + [((len + 128) % 256) as byte, comp[y]];
      ps := ps + [Run(len, comp[y])];
      y := y + len;
    }
  }

  method RunEnd(comp: seq<byte>, x: nat) returns (r: nat)
    requires RunStarts(comp, x)
    ensures x + 3 <= r <= |comp| && forall k :: x <= k < r ==> comp[k] == comp[x]
    ensures r < |comp| ==> comp[r] != comp[x]
  {
    r := x;
    while r < |comp| && comp[r] == comp[x]
      invariant x <= r <= |comp| && forall k :: x <= k < r ==> comp[k] == comp[x]
    {
      r := r + 1;
    }
  }

  /** Every split-off run of three or more pays for its own headers. */
  lemma RunPays(x: nat, d: nat, n: nat)
    requires n >= 3
    ensures x + x / 128 + (d + Ceil(d, 128)) + 2 * Ceil(n, 127) <= x + d + n + (x + d + n) / 128
  {
    assert 2 * Ceil(n, 127) <= n - 1;
    assert Ceil(d, 128) <= d / 128 + 1;
    assert x / 128 + d / 128 <= (x + d + n) / 128;
  }

  lemma LastDump(x: nat, d: nat)
    ensures x + x / 128 + (d + Ceil(d, 128)) <= x + d + Ceil(x + d, 128)
  {
  }

  /**
    One component of a scanline: packets of 1 to 128 bytes that stand for exactly its bytes,
    at a cost of at most one extra byte in 128, which a component without runs does cost.
  */
  method WriteComponent(comp: seq<byte>) returns (out: seq<byte>, ghost ps: seq<Packet>)
    ensures AllValid(ps) && out == Stream(ps) && Meanings(ps) == comp
    ensures |out| <= |comp| + Ceil(|comp|, 128)
    ensures (forall k :: 0 <= k < |comp| ==> !RunStarts(comp, k)) ==> |out| == |comp| + Ceil(|comp|, 128)
  {
    hide Packed, Ceil, AllValid, Stream, Meanings;
    out, ps := [], [];
    PackedNone(comp, 0);
    CeilFacts(|comp|);
    var x := 0;
    while x < |comp|
      invariant x <= |comp| && Packed(ps, out, comp, 0, x)
      invariant |out| <= if x < |comp| then x + x / 128 else x + Ceil(x, 128)
      invariant (forall k :: 0 <= k < |comp| ==> !RunStarts(comp, k)) ==>
                  |out| == if x < |comp| then 0 else x + Ceil(x, 128)
      invariant (forall k :: 0 <= k < |comp| ==> !RunStarts(comp, k)) && x < |comp| ==> x == 0
    {
      var r := FindRun(comp, x);
      var dumps;
      ghost var ds;
      dumps, ds := WriteDumps(comp, x, r);
      PackedAppend(ps, out, ds, dumps, comp, 0, x, r);
      out, ps := out + dumps, ps + ds;
      if r + 2 < |comp| {
        var end := RunEnd(comp, r);
        var runs;
        ghost var rs;
        runs, rs := WriteRuns(comp, r, end);
        PackedAppend(ps, out, rs, runs, comp, 0, r, end);
        RunPays(x, r - x, end - r);
        CeilFacts(end);
        out, ps := out + runs, ps + rs;
        x := end;
      } else {
        LastDump(x, r - x);
        x := r;
      }
    }
    PackedWhole(ps, out, comp);
  }

  lemma CeilFacts(n: nat)
    ensures n / 128 <= Ceil(n, 128) && Ceil(0, 128) == 0
  {
  }

  lemma PackedWhole(ps: seq<Packet>, out: seq<byte>, comp: seq<byte>)
    requires Packed(ps, out, comp, 0, |comp|)
    ensures AllValid(ps) && out == Stream(ps) && Meanings(ps) == comp
  {
    hide AllValid, Stream, Meanings;
    assert comp[0..|comp|] == comp;
  }
}
