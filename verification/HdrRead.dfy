/**
  Radiance scanlines, from the first one on: the run-length and flat readers of
  stbi__hdr_load, and the round trip.  Pixels stay RGBE bytes.
*/
module HdrRead {
  import opened Bits
  import opened ByteStream
  import opened ImageRows
  import opened HdrWrite

  // ---- one component ----

  /** `Endless`: the input ends, and the reader spins on empty packets. */
  datatype Component = Corrupt | Endless | Got(data: seq<byte>, pos: nat)
  {
    function Prepend(head: seq<byte>): Component
    {
      if Got? then Got(head + data, pos) else this
    }
  }

  /** What the packets at pos say the next n bytes are. */
  function Unpacked(s: seq<byte>, pos: nat, n: nat): (r: Component)
    ensures r.Got? ==> |r.data| == n
    decreases n, if pos < |s| then |s| - pos else 0
  {
    var count := Get8(s, pos);
    if n == 0 then Got([], pos)
    else if count > 128 then
      if count - 128 > n then Corrupt
      else Unpacked(s, pos + 2, n - (count - 128)).Prepend(Same(Get8(s, pos + 1), count - 128))
    else if count > n then Corrupt
    else if count > 0 then
      Unpacked(s, pos + 1 + count as int, n - count).Prepend(Read(s, pos + 1, count))
    else if pos < |s| then Unpacked(s, pos + 1, n)
    else Endless
  }

  // ---- the inputs on which the loop ends ----

  /** How many bytes each packet stands for whose header lies inside the input. */
  function Lengths(s: seq<byte>, pos: nat): seq<nat>
    decreases |s| - pos
  {
    if pos >= |s| then []
    else if s[pos] > 128 then [(s[pos] - 128) as nat] + Lengths(s, pos + 2)
    else [s[pos] as nat] + Lengths(s, pos + 1 + s[pos] as int)
  }

  function Total(lengths: seq<nat>): nat
  {
    if lengths == [] then 0 else lengths[0] + Total(lengths[1..])
  }

  /** A component never fills exactly when all the packets that begin inside the input cover too little. */
  lemma {:induction false} EndlessIff(s: seq<byte>, pos: nat, n: nat)
    ensures Unpacked(s, pos, n) == Endless <==> Total(Lengths(s, pos)) < n
    decreases n, if pos < |s| then |s| - pos else 0
  {
    if n > 0 && pos < |s| {
      var count := s[pos];
      if 128 < count <= n + 128 {
        EndlessIff(s, pos + 2, n - (count - 128));
      } else if count <= 128 && count <= n {
        EndlessIff(s, pos + 1 + count as int, n - count);
      }
    }
  }

  /** A component is read exactly when some of those packets, from the first one on, cover just it. */
  lemma {:induction false} GotIff(s: seq<byte>, pos: nat, n: nat)
    ensures Unpacked(s, pos, n).Got? <==> exists k :: 0 <= k <= |Lengths(s, pos)| && Total(Lengths(s, pos)[..k]) == n
    decreases n, if pos < |s| then |s| - pos else 0
  {
    var all := Lengths(s, pos);
    if n == 0 {
      assert Total(all[..0]) == n;
    } else if pos < |s| {
      var next := if s[pos] > 128 then pos + 2 else pos + 1 + s[pos] as int;
      assert all == [all[0]] + Lengths(s, next);
      if all[0] <= n {
        GotIff(s, next, n - all[0]);
      }
      ExactShifts(all[0], Lengths(s, next), n);
    }
  }

  lemma ExactShifts(first: nat, rest: seq<nat>, n: nat)
    requires n > 0
    ensures (exists k :: 0 <= k <= |[first] + rest| && Total(([first] + rest)[..k]) == n)
            <==> first <= n && exists k :: 0 <= k <= |rest| && Total(rest[..k]) == n - first
  {
    var all := [first] + rest;
    forall k | 0 <= k <= |rest| ensures Total(all[..k + 1]) == first + Total(rest[..k]) {
      assert all[..k + 1][1..] == rest[..k];
    }
    if k :| 0 <= k <= |all| && Total(all[..k]) == n {
      assert k != 0;
      assert Total(all[..(k - 1) + 1]) == first + Total(rest[..k - 1]);
    }
    if first <= n && exists k :: 0 <= k <= |rest| && Total(rest[..k]) == n - first {
      var k :| 0 <= k <= |rest| && Total(rest[..k]) == n - first;
      assert Total(all[..k + 1]) == n;
    }
  }

  /** Where the loop over the packets stands: i bytes are stored, or a packet was too long. */
  datatype Cursor = Cursor(pos: nat, i: nat) | Refused

  /** One turn of the loop that fills w bytes; it has ended when i reaches w or a packet is refused. */
  function Turn(s: seq<byte>, w: nat, c: Cursor): Cursor
  {
    if c.Refused? || c.i >= w then c
    else
      var count := Get8(s, c.pos);
      var length := if count > 128 then count - 128 else count;
      if length > w - c.i then Refused
      else Cursor(c.pos + (if count > 128 then 2 else 1 + count as int), c.i + length as int)
  }

  function Turns(s: seq<byte>, w: nat, c: Cursor, t: nat): Cursor
    decreases t
  {
    if t == 0 then c else Turns(s, w, Turn(s, w, c), t - 1)
  }

  predicate Unfilled(c: Cursor, w: nat) { c.Cursor? && c.i < w }

  /** One that covers too little is never filled, however many turns the loop takes ... */
  lemma {:induction false} NeverFilled(s: seq<byte>, w: nat, pos: nat, i: nat, t: nat)
    requires i < w && Total(Lengths(s, pos)) < w - i
    ensures Unfilled(Turns(s, w, Cursor(pos, i), t), w)
    decreases t
  {
    if t > 0 {
      var c := Turn(s, w, Cursor(pos, i));
      NeverFilled(s, w, c.pos, c.i, t - 1);
    }
  }

  /** ... and past the end of the input not even i moves. */
  lemma {:induction false} PastTheEnd(s: seq<byte>, w: nat, pos: nat, i: nat, t: nat)
    requires i < w && pos >= |s|
    ensures Turns(s, w, Cursor(pos, i), t) == Cursor(pos + t, i)
    decreases t
  {
    if t > 0 {
      PastTheEnd(s, w, pos + 1, i, t - 1);
    }
  }

  /** Any other loop is over after as many turns as packets begin inside the input. */
  lemma {:induction false} OverInTime(s: seq<byte>, w: nat, pos: nat, i: nat)
    requires i <= w <= i + Total(Lengths(s, pos))
    ensures !Unfilled(Turns(s, w, Cursor(pos, i), |Lengths(s, pos)|), w)
    decreases |Lengths(s, pos)|
  {
    if i == w {
      Stopped(s, w, Cursor(pos, i), |Lengths(s, pos)|);
    } else {
      var c := Turn(s, w, Cursor(pos, i));
      if c.Refused? {
        Stopped(s, w, c, |Lengths(s, pos)| - 1);
      } else {
        OverInTime(s, w, c.pos, c.i);
      }
    }
  }

  lemma {:induction false} Stopped(s: seq<byte>, w: nat, c: Cursor, t: nat)
    requires !Unfilled(c, w)
    ensures Turns(s, w, c, t) == c
    decreases t
  {
    if t > 0 {
      Stopped(s, w, c, t - 1);
    }
  }

  /** The loop goes on for ever exactly on the inputs that mean nothing. */
  lemma SpinsIff(s: seq<byte>, pos: nat, w: nat)
    ensures Unpacked(s, pos, w) == Endless <==> forall t: nat :: Unfilled(Turns(s, w, Cursor(pos, 0), t), w)
  {
    hide Unpacked, Turns, Lengths;
    EndlessIff(s, pos, w);
    if Total(Lengths(s, pos)) < w {
      forall t: nat ensures Unfilled(Turns(s, w, Cursor(pos, 0), t), w) {
        NeverFilled(s, w, pos, 0, t);
      }
    } else {
      OverInTime(s, w, pos, 0);
    }
  }

  /**
    Inputs that end inside their only packet, at the least width coded with packets: one
    fills the component with zeros, the other never does.
  */
  lemma ShortInputs()
    ensures RunLength(8) && Unpacked([8, 5], 0, 8) == Got([5] + Zeros(7), 9)
    ensures Unpacked([7, 5], 0, 8) == Endless
    ensures forall t: nat :: Unfilled(Turns([7, 5], 8, Cursor(0, 0), t), 8)
  {
    hide Unpacked, Read, Turns;
    var s: seq<byte> := [7, 5];
    assert Lengths(s, 0) == [7] + Lengths(s, 8);
    EndlessIff(s, 0, 8);
    SpinsIff(s, 0, 8);
    DumpUnpacked([8, 5], 0, 8);
    NothingLeft([8, 5], 9);
    ReadPast([8, 5], 2, 7);
    ReadFirst([8, 5], 1, 8);
  }

  lemma {:induction false} ReadPast(s: seq<byte>, pos: nat, n: nat)
    requires |s| <= pos
    ensures Read(s, pos, n) == Zeros(n)
    decreases n
  {
    if n > 0 {
      ReadPast(s, pos + 1, n - 1);
    }
  }

  lemma ReadFirst(s: seq<byte>, pos: nat, n: nat)
    requires n > 0
    ensures Read(s, pos, n) == [Get8(s, pos)] + Read(s, pos + 1, n - 1)
  {
  }

  lemma DumpUnpacked(s: seq<byte>, pos: nat, n: nat)
    requires n > 0 && Get8(s, pos) <= 128 && Get8(s, pos) <= n
    ensures var count := Get8(s, pos) as int;
      Unpacked(s, pos, n) == Unpacked(s, pos + 1 + count, n - count).Prepend(Read(s, pos + 1, count))
    decreases n, |s|
  {
    hide Read;
    assert Read(s, pos + 1, 0) == [] by { ReadNothing(s, pos + 1); }
  }

  lemma ReadNothing(s: seq<byte>, pos: nat)
    ensures Read(s, pos, 0) == []
  {
  }

  lemma RunUnpacked(s: seq<byte>, pos: nat, n: nat)
    requires 128 < Get8(s, pos) <= n + 128
    ensures var count := Get8(s, pos) - 128;
      Unpacked(s, pos, n) == Unpacked(s, pos + 2, n - count).Prepend(Same(Get8(s, pos + 1), count))
    decreases n, |s|
  {
    hide Get8, Same;
  }

  lemma PacketUnpacked(s: seq<byte>, pos: nat, p: Packet, n: nat)
    requires p.Valid() && At(s, pos, p.Bytes()) && |p.Meaning()| <= n
    ensures Unpacked(s, pos, n) == Unpacked(s, pos + |p.Bytes()|, n - |p.Meaning()|).Prepend(p.Meaning())
  {
    hide At, Read, Get8, Same, Unpacked, Component.Prepend;
    Get8At(s, pos, p.Bytes(), 0);
    match p
    case Dump(d) =>
      AtSplit(s, pos, [(|d| % 256) as byte], d);
      ReadAt(s, pos + 1, d);
      DumpUnpacked(s, pos, n);
    case Run(len, v) =>
      Get8At(s, pos, p.Bytes(), 1);
      RunUnpacked(s, pos, n);
  }

  /** The reader undoes the writer's packets and stops right behind them. */
  lemma {:induction false} StreamUnpacked(s: seq<byte>, pos: nat, ps: seq<Packet>)
    requires AllValid(ps) && At(s, pos, Stream(ps))
    ensures Unpacked(s, pos, |Meanings(ps)|) == Got(Meanings(ps), pos + |Stream(ps)|)
    decreases |ps|
  {
    hide At, Unpacked, Packet.Bytes, Packet.Meaning, Packet.Valid;
    if ps == [] {
      NothingLeft(s, pos);
    } else {
      var p := ps[0];
      AtSplit(s, pos, p.Bytes(), Stream(ps[1..]));
      PacketUnpacked(s, pos, p, |Meanings(ps)|);
      StreamUnpacked(s, pos + |p.Bytes()|, ps[1..]);
    }
  }

  lemma NothingLeft(s: seq<byte>, pos: nat)
    ensures Unpacked(s, pos, 0) == Got([], pos)
  {
  }

  // ---- a scanline: four components, stored interleaved ----

  /** Component k of interleaved pixels. */
  function Plane(px: seq<byte>, k: nat): (r: seq<byte>)
    requires k < 4 && |px| % 4 == 0
    ensures |r| == |px| / 4 && forall i :: 0 <= i < |r| ==> r[i] == px[4 * i + k]
  {
    seq(|px| / 4, i requires 0 <= i < |px| / 4 => px[4 * i + k])
  }

  function Interleave(a: seq<byte>, b: seq<byte>, c: seq<byte>, d: seq<byte>): (r: seq<byte>)
    requires |a| == |b| == |c| == |d|
    ensures |r| == 4 * |a|
  {
    if a == [] then [] else [a[0], b[0], c[0], d[0]] + Interleave(a[1..], b[1..], c[1..], d[1..])
  }

  lemma {:induction false} InterleaveAt(a: seq<byte>, b: seq<byte>, c: seq<byte>, d: seq<byte>, i: nat)
    requires |a| == |b| == |c| == |d| && i < |a|
    ensures var r := Interleave(a, b, c, d);
      r[4 * i] == a[i] && r[4 * i + 1] == b[i] && r[4 * i + 2] == c[i] && r[4 * i + 3] == d[i]
    decreases i
  {
    if i > 0 {
      InterleaveAt(a[1..], b[1..], c[1..], d[1..], i - 1);
    }
  }

  lemma PlaneAt(px: seq<byte>, m: nat)
    requires |px| % 4 == 0 && m < |px|
    ensures px[m] == Plane(px, m % 4)[m / 4]
  {
    assert m == 4 * (m / 4) + m % 4;
  }

  lemma InterleavePlanes(a: seq<byte>, b: seq<byte>, c: seq<byte>, d: seq<byte>)
    requires |a| == |b| == |c| == |d|
    ensures var r := Interleave(a, b, c, d);
      Plane(r, 0) == a && Plane(r, 1) == b && Plane(r, 2) == c && Plane(r, 3) == d
  {
    hide Interleave;
    var r := Interleave(a, b, c, d);
    forall i | 0 <= i < |a|
      ensures Plane(r, 0)[i] == a[i] && Plane(r, 1)[i] == b[i] && Plane(r, 2)[i] == c[i] && Plane(r, 3)[i] == d[i]
    {
      InterleaveAt(a, b, c, d, i);
    }
  }

  /** Pixels are determined by their components. */
  lemma PlanesDetermine(px: seq<byte>, qx: seq<byte>)
    requires |px| == |qx| && |px| % 4 == 0
    requires forall k :: 0 <= k < 4 ==> Plane(px, k) == Plane(qx, k)
    ensures px == qx
  {
    hide Plane;
    forall m | 0 <= m < |px| ensures px[m] == qx[m] {
      PlaneAt(px, m);
      PlaneAt(qx, m);
    }
  }

  datatype Planes = Fault(why: Component) | Good(planes: seq<seq<byte>>, pos: nat)

  /** The first k components of w bytes each, one behind the other. */
  function Components(s: seq<byte>, pos: nat, w: nat, k: nat): (r: Planes)
    ensures r.Good? ==> |r.planes| == k && forall j :: 0 <= j < k ==> |r.planes[j]| == w
    ensures r.Fault? ==> !r.why.Got?
  {
    if k == 0 then Good([], pos)
    else match Components(s, pos, w, k - 1)
         case Fault(c) => Fault(c)
         case Good(ps, p) => (match Unpacked(s, p, w) case Got(d, q) => Good(ps + [d], q) case c => Fault(c))
  }

  lemma {:induction false} FaultStays(s: seq<byte>, pos: nat, w: nat, i: nat, k: nat)
    requires i <= k && Components(s, pos, w, i).Fault?
    ensures Components(s, pos, w, k) == Components(s, pos, w, i)
  {
    if i < k {
      FaultStays(s, pos, w, i, k - 1);
    }
  }

  /** A scanline of w pixels. */
  function Scanline(s: seq<byte>, pos: nat, w: nat): (r: Component)
    ensures r.Got? ==> |r.data| == 4 * w
  {
    match Components(s, pos, w, 4)
    case Fault(c) => c
    case Good(ps, q) => Got(Interleave(ps[0], ps[1], ps[2], ps[3]), q)
  }

  // ---- the image ----

  /** `Undefined`: the input ends too early. */
  datatype Image = Bad | Undefined | Loaded(pixels: seq<byte>)

  function FlatPixels(s: seq<byte>, pos: nat, w: nat, h: nat): Image
  {
    if pos + RowOff(4 * w, h) > |s| then Undefined else Loaded(Read(s, pos, RowOff(4 * w, h)))
  }

  predicate RunLength(w: nat) { 8 <= w < 32768 }

  /** Scanline j on.  One without the run-length mark makes all that follows the flat image. */
  function Scanlines(s: seq<byte>, pos: nat, w: nat, h: nat, j: nat, out: seq<byte>): Image
    decreases h - j
  {
    if j >= h then Loaded(out)
    else if Get8(s, pos) != 2 || Get8(s, pos + 1) != 2 || Get8(s, pos + 2) >= 128 then FlatPixels(s, pos, w, h)
    else if 256 * Get8(s, pos + 2) as int + Get8(s, pos + 3) as int != w then Bad
    else match Scanline(s, pos + 4, w)
         case Corrupt => Bad
         case Endless => Undefined
         case Got(row, next) => Scanlines(s, next, w, h, j + 1, out + row)
  }

  function LoadPixels(s: seq<byte>, pos: nat, w: nat, h: nat): Image
  {
    if RunLength(w) then Scanlines(s, pos, w, h, 0, []) else FlatPixels(s, pos, w, h)
  }

  // ---- the reader ----

  /** Component k of t may differ from that of u, the others may not. */
  ghost predicate OnlyPlane(t: seq<byte>, u: seq<byte>, k: nat)
  {
    |t| == |u| && |t| % 4 == 0 && forall j :: 0 <= j < 4 && j != k ==> Plane(t, j) == Plane(u, j)
  }

  lemma PlaneUpdate(px: seq<byte>, i: nat, k: nat, v: byte)
    requires k < 4 && |px| % 4 == 0 && i < |px| / 4
    ensures Plane(px[4 * i + k := v], k) == Plane(px, k)[i := v]
    ensures OnlyPlane(px[4 * i + k := v], px, k)
  {
    var t := px[4 * i + k := v];
    forall j | 0 <= j < 4 && j != k ensures Plane(t, j) == Plane(px, j) {
      forall m | 0 <= m < |px| / 4 ensures Plane(t, j)[m] == Plane(px, j)[m] {
        assert 4 * m + j != 4 * i + k;
      }
    }
  }

  method StoreByte(scanline: array<byte>, i: nat, k: nat, v: byte)
    requires k < 4 && scanline.Length % 4 == 0 && i < scanline.Length / 4
    modifies scanline
    ensures OnlyPlane(scanline[..], old(scanline[..]), k)
    ensures Plane(scanline[..], k)[..i + 1] == old(Plane(scanline[..], k)[..i]) + [v]
  {
    hide Plane, OnlyPlane;
    PlaneUpdate(scanline[..], i, k, v);
    scanline[i * 4 + k] := v;
    assert scanline[..] == old(scanline[..])[4 * i + k := v];
  }

  lemma OnlyPlaneTwice(t: seq<byte>, u: seq<byte>, v: seq<byte>, k: nat)
    requires OnlyPlane(t, u, k) && OnlyPlane(u, v, k)
    ensures OnlyPlane(t, v, k)
  {
    hide Plane;
  }

  lemma OnlyPlaneSelf(t: seq<byte>, k: nat)
    requires |t| % 4 == 0
    ensures OnlyPlane(t, t, k)
  {
  }

  method StoreRun(scanline: array<byte>, i: nat, k: nat, value: byte, count: nat)
    requires k < 4 && scanline.Length % 4 == 0 && i + count <= scanline.Length / 4
    modifies scanline
    ensures OnlyPlane(scanline[..], old(scanline[..]), k)
    ensures Plane(scanline[..], k)[..i + count] == old(Plane(scanline[..], k)[..i]) + Same(value, count)
  {
    hide Plane, OnlyPlane;
    OnlyPlaneSelf(scanline[..], k);
    for z := 0 to count
      invariant OnlyPlane(scanline[..], old(scanline[..]), k)
      invariant Plane(scanline[..], k)[..i + z] == old(Plane(scanline[..], k)[..i]) + Same(value, z)
    {
      ghost var before := scanline[..];
      StoreByte(scanline, i + z, k, value);
      OnlyPlaneTwice(scanline[..], before, old(scanline[..]), k);
      assert Same(value, z + 1) == Same(value, z) + [value];
    }
  }

  lemma {:induction false} ReadMore(s: seq<byte>, p: nat, n: nat)
    ensures Read(s, p, n + 1) == Read(s, p, n) + [Get8(s, p + n)]
    decreases n
  {
    if n > 0 {
      ReadMore(s, p + 1, n - 1);
    }
  }

  method StoreDump(scanline: array<byte>, i: nat, k: nat, s: seq<byte>, pos: nat, count: nat)
    requires k < 4 && scanline.Length % 4 == 0 && i + count <= scanline.Length / 4
    modifies scanline
    ensures OnlyPlane(scanline[..], old(scanline[..]), k)
    ensures Plane(scanline[..], k)[..i + count] == old(Plane(scanline[..], k)[..i]) + Read(s, pos, count)
  {
    hide Plane, OnlyPlane, Get8;
    OnlyPlaneSelf(scanline[..], k);
    for z := 0 to count
      invariant OnlyPlane(scanline[..], old(scanline[..]), k)
      invariant Plane(scanline[..], k)[..i + z] == old(Plane(scanline[..], k)[..i]) + Read(s, pos, z)
    {
      ghost var before := scanline[..];
      StoreByte(scanline, i + z, k, Get8(s, pos + z));
      OnlyPlaneTwice(scanline[..], before, old(scanline[..]), k);
      ReadMore(s, pos, z);
    }
  }

  /** One packet, a turn of the loop: nothing is stored when it claims more than is left. */
  method ReadPacket(scanline: array<byte>, i: nat, k: nat, s: seq<byte>, pos: nat, w: nat)
    returns (ok: bool, i': nat, pos': nat)
    requires k < 4 && scanline.Length == 4 * w && i < w
    modifies scanline
    ensures OnlyPlane(scanline[..], old(scanline[..]), k)
    ensures Turn(s, w, Cursor(pos, i)) == if ok then Cursor(pos', i') else Refused
    ensures !ok ==> Unpacked(s, pos, w - i) == Corrupt
    ensures ok ==> i <= i' <= w && pos < pos'
    ensures ok ==> |Plane(scanline[..], k)| == w && old(Plane(scanline[..], k)[..i]) <= Plane(scanline[..], k)[..i']
    ensures ok ==> Unpacked(s, pos, w - i) == Unpacked(s, pos', w - i').Prepend(Plane(scanline[..], k)[i..i'])
  {
    hide Plane, OnlyPlane, Get8, Read, Same;
    OnlyPlaneSelf(scanline[..], k);
    var count := Get8(s, pos);
    i', pos' := i, pos + 1;
    if count > 128 {
      var value := Get8(s, pos + 1);
      count := count - 128;
      if count > w - i {
        return false, i', pos';
      }
      RunUnpacked(s, pos, w - i);
      StoreRun(scanline, i, k, value, count);
      i', pos' := i + count as int, pos + 2;
    } else {
      if count > w - i {
        return false, i', pos';
      }
      DumpUnpacked(s, pos, w - i);
      StoreDump(scanline, i, k, s, pos + 1, count);
      i', pos' := i + count as int, pos + 1 + count as int;
    }
    ok := true;
  }

  lemma InsideInput(s: seq<byte>, pos: nat, n: nat)
    requires n > 0 && Unpacked(s, pos, n) != Endless
    ensures pos < |s|
  {
  }

  lemma PrependTwice(c: Component, u: seq<byte>, v: seq<byte>)
    ensures c.Prepend(v).Prepend(u) == c.Prepend(u + v)
  {
    if c.Got? {
      assert u + (v + c.data) == (u + v) + c.data;
    }
  }

  /** The loop over the packets of one component. */
  method ReadComponent(scanline: array<byte>, k: nat, s: seq<byte>, start: nat, w: nat) returns (ok: bool, pos: nat)
    requires k < 4 && scanline.Length == 4 * w && w <= Total(Lengths(s, start))
    modifies scanline
    ensures OnlyPlane(scanline[..], old(scanline[..]), k)
    ensures Unpacked(s, start, w) == if ok then Got(Plane(scanline[..], k), pos) else Corrupt
  {
    hide Plane, OnlyPlane, Unpacked, Lengths, Turn;
    OnlyPlaneSelf(scanline[..], k);
    EndlessIff(s, start, w);
    pos := start;
    var i := 0;
    assert Unpacked(s, start, w).Prepend([]) == Unpacked(s, start, w);
    while i < w
      invariant i <= w && OnlyPlane(scanline[..], old(scanline[..]), k) && Unpacked(s, pos, w - i) != Endless
      invariant Unpacked(s, start, w) == Unpacked(s, pos, w - i).Prepend(Plane(scanline[..], k)[..i])
      decreases w - i, if pos < |s| then |s| - pos else 0
    {
      ghost var before, i0 := scanline[..], i;
      ghost var head := Plane(before, k)[..i];
      InsideInput(s, pos, w - i);
      ok, i, pos := ReadPacket(scanline, i, k, s, pos, w);
      OnlyPlaneTwice(scanline[..], before, old(scanline[..]), k);
      if !ok {
        return false, pos;
      }
      ghost var plane := Plane(scanline[..], k);
      PrependTwice(Unpacked(s, pos, w - i), head, plane[i0..i]);
      assert plane[..i] == head + plane[i0..i];
    }
    NothingLeft(s, pos);
    ghost var plane := Plane(scanline[..], k);
    assert plane[..w] == plane;
    ok := true;
  }

  /** The loop over the components of one scanline. */
  method ReadScanline(scanline: array<byte>, s: seq<byte>, start: nat, w: nat) returns (ok: bool, pos: nat)
    requires scanline.Length == 4 * w && Scanline(s, start, w) != Endless
    modifies scanline
    ensures Scanline(s, start, w) == if ok then Got(scanline[..], pos) else Corrupt
  {
    hide Plane, Unpacked, Interleave;
    pos := start;
    ghost var planes: seq<seq<byte>> := [];
    for k := 0 to 4
      invariant Components(s, start, w, k) == Good(planes, pos)
      invariant |planes| == k && forall j :: 0 <= j < k ==> Plane(scanline[..], j) == planes[j]
    {
      ghost var before := scanline[..];
      if Components(s, start, w, k + 1).Fault? {
        FaultStays(s, start, w, k + 1, 4);
      }
      EndlessIff(s, pos, w);
      ok, pos := ReadComponent(scanline, k, s, pos, w);
      if !ok {
        return false, pos;
      }
      assert forall j :: 0 <= j < k ==> Plane(scanline[..], j) == Plane(before, j);
      planes := planes + [Plane(scanline[..], k)];
    }
    ok := true;
    InterleavePlanes(planes[0], planes[1], planes[2], planes[3]);
    PlanesDetermine(scanline[..], Interleave(planes[0], planes[1], planes[2], planes[3]));
  }

  /** One flat pixel: stbi__getn with four bytes. */
  method ReadPixel(s: seq<byte>, start: nat, n: nat) returns (rgbe: seq<byte>)
    ensures Read(s, start, n + 4) == Read(s, start, n) + rgbe
  {
    hide Read, Get8;
    var p := start + n;
    ReadMore(s, start, n);
    ReadMore(s, start, n + 1);
    ReadMore(s, start, n + 2);
    ReadMore(s, start, n + 3);
    rgbe := [Get8(s, p), Get8(s, p + 1), Get8(s, p + 2), Get8(s, p + 3)];
    assert Read(s, start, n + 2) == Read(s, start, n) + rgbe[..2];
    assert Read(s, start, n + 3) == Read(s, start, n) + rgbe[..3];
  }

  method ReadFlat(s: seq<byte>, pos: nat, w: nat, h: nat) returns (r: Image)
    requires FlatPixels(s, pos, w, h) != Undefined
    ensures r == FlatPixels(s, pos, w, h)
  {
    hide Read;
    var out := [];
    var n := 0;
    ReadNothing(s, pos);
    for j := 0 to h
      invariant n == RowOff(4 * w, j) && out == Read(s, pos, n)
    {
      for i := 0 to w
        invariant n == RowOff(4 * w, j) + 4 * i && out == Read(s, pos, n)
      {
        var rgbe := ReadPixel(s, pos, n);
        out := out + rgbe;
        n := n + 4;
      }
    }
    r := Loaded(out);
  }

  /** The pixel part of stbi__hdr_load. */
  method Load(s: seq<byte>, start: nat, w: nat, h: nat) returns (r: Image)
    requires LoadPixels(s, start, w, h) != Undefined
    ensures r == LoadPixels(s, start, w, h)
  {
    hide Scanline, FlatPixels, Get8;
    if w < 8 || w >= 32768 {
      r := ReadFlat(s, start, w, h);
      return;
    }
    var out := [];
    var pos := start;
    var scanline := new byte[4 * w];
    for j := 0 to h
      invariant Scanlines(s, pos, w, h, j, out) == LoadPixels(s, start, w, h)
    {
      var c1, c2, len := Get8(s, pos), Get8(s, pos + 1), Get8(s, pos + 2) as int;
      if c1 != 2 || c2 != 2 || len >= 128 {
        r := ReadFlat(s, pos, w, h);
        return;
      }
      len := 256 * len + Get8(s, pos + 3) as int;
      if len != w {
        return Bad;
      }
      var ok, next := ReadScanline(scanline, s, pos + 4, w);
      if !ok {
        return Bad;
      }
      out := out + scanline[..];
      pos := next;
    }
    r := Loaded(out);
  }

  // ---- the writer and the round trip ----

  /** The loop over the components of one scanline. */
  method WriteComponents(px: seq<byte>, w: nat) returns (out: seq<byte>, ghost ps: seq<seq<Packet>>)
    requires |px| == 4 * w
    ensures |ps| == 4 && out == Streams(ps) && Stands(ps, px)
    ensures |out| <= 4 * (w + Ceil(w, 128))
  {
    hide Plane, Ceil, Stream, Stands;
    ghost var each := w + Ceil(w, 128);
    out, ps := [], [];
    NoStreams(px);
    for c := 0 to 4
      invariant |ps| == c && out == Streams(ps) && Stands(ps, px)
      invariant |out| <= RowOff(each, c)
    {
      var bytes;
      ghost var packets;
      bytes, packets := WriteComponent(Plane(px, c));
      StreamsPush(ps, packets, px);
      out := out + bytes;
      ps := ps + [packets];
    }
    RowOffIs(each, 4);
  }

  /** stbiw__write_hdr_scanline */
  method WriteScanline(px: seq<byte>, w: nat) returns (out: seq<byte>, ghost ps: seq<seq<Packet>>)
    requires |px| == 4 * w
    ensures if RunLength(w) then Encodes(px, w, out, ps) else out == px
    ensures RunLength(w) ==> |out| <= 4 + 4 * (w + Ceil(w, 128))
  {
    hide Ceil, Streams, Stands;
    ps := [];
    if w < 8 || w >= 32768 {
      out := px;
    } else {
      out, ps := WriteComponents(px, w);
      out := [2, 2, w / 256, w % 256] + out;
    }
  }

  /** Packets per component that stand for the first components of px. */
  ghost predicate Stands(ps: seq<seq<Packet>>, px: seq<byte>)
  {
    |ps| <= 4 && |px| % 4 == 0 && forall k :: 0 <= k < |ps| ==> AllValid(ps[k]) && Meanings(ps[k]) == Plane(px, k)
  }

  function Streams(ps: seq<seq<Packet>>): seq<byte>
  {
    if ps == [] then [] else Streams(ps[..|ps| - 1]) + Stream(ps[|ps| - 1])
  }

  lemma NoStreams(px: seq<byte>)
    requires |px| % 4 == 0
    ensures Streams([]) == [] && Stands([], px)
  {
  }

  lemma StreamsPush(ps: seq<seq<Packet>>, p: seq<Packet>, px: seq<byte>)
    requires Stands(ps, px) && |ps| < 4 && AllValid(p) && Meanings(p) == Plane(px, |ps|)
    ensures Streams(ps + [p]) == Streams(ps) + Stream(p) && Stands(ps + [p], px)
  {
    hide Stream, Streams, Meanings, AllValid, Plane;
    StreamsGrow(ps, p);
  }

  lemma StreamsGrow(ps: seq<seq<Packet>>, p: seq<Packet>)
    ensures Streams(ps + [p]) == Streams(ps) + Stream(p)
  {
    hide Stream;
    assert (ps + [p])[..|ps|] == ps;
  }

  /** The bytes of a scanline: its mark and width, then the packets of each component. */
  ghost predicate Encodes(px: seq<byte>, w: nat, out: seq<byte>, ps: seq<seq<Packet>>)
    requires |px| == 4 * w && w < 0x1_0000
  {
    |ps| == 4 && Stands(ps, px) && out == [2, 2, w / 256, w % 256] + Streams(ps)
  }

  lemma {:induction false} ComponentsRead(s: seq<byte>, pos: nat, px: seq<byte>, w: nat, ps: seq<seq<Packet>>)
    requires |px| == 4 * w && Stands(ps, px) && At(s, pos, Streams(ps))
    ensures Components(s, pos, w, |ps|).Good?
    ensures var r := Components(s, pos, w, |ps|);
      r.pos == pos + |Streams(ps)| && forall k :: 0 <= k < |ps| ==> r.planes[k] == Plane(px, k)
    decreases |ps|
  {
    hide At, Stream, Meanings, AllValid, Plane, Unpacked;
    if ps != [] {
      var n := |ps| - 1;
      AtSplit(s, pos, Streams(ps[..n]), Stream(ps[n]));
      ComponentsRead(s, pos, px, w, ps[..n]);
      StreamUnpacked(s, pos + |Streams(ps[..n])|, ps[n]);
    }
  }

  /** The reader undoes the writer on one scanline and stops right behind it. */
  lemma ScanlineReads(s: seq<byte>, pos: nat, px: seq<byte>, w: nat, out: seq<byte>, ps: seq<seq<Packet>>)
    requires RunLength(w) && |px| == 4 * w && Encodes(px, w, out, ps) && At(s, pos, out)
    ensures Get8(s, pos) == 2 && Get8(s, pos + 1) == 2 && Get8(s, pos + 2) < 128
    ensures 256 * Get8(s, pos + 2) as int + Get8(s, pos + 3) as int == w
    ensures Scanline(s, pos + 4, w) == Got(px, pos + |out|)
  {
    hide At, Stands, Streams, Plane, Components, Get8, Interleave;
    var head: seq<byte> := [2, 2, w / 256, w % 256];
    AtSplit(s, pos, head, Streams(ps));
    Get8At(s, pos, head, 0);
    Get8At(s, pos, head, 1);
    Get8At(s, pos, head, 2);
    Get8At(s, pos, head, 3);
    ComponentsRead(s, pos + 4, px, w, ps);
    InterleavePlanes(Plane(px, 0), Plane(px, 1), Plane(px, 2), Plane(px, 3));
    PlanesDetermine(px, Interleave(Plane(px, 0), Plane(px, 1), Plane(px, 2), Plane(px, 3)));
  }

  /** Row r in the order rows are written. */
  function RowToWrite(px: seq<byte>, w: nat, h: nat, flip: bool, r: nat): (row: seq<byte>)
    requires |px| == RowOff(4 * w, h) && r < h
    ensures |row| == 4 * w
  {
    RowAt(px, 4 * w, h, if flip then h - 1 - r else r)
  }

  /** The first r rows in the order they are written. */
  function Written(px: seq<byte>, w: nat, h: nat, flip: bool, r: nat): (t: seq<byte>)
    requires |px| == RowOff(4 * w, h) && r <= h
    ensures |t| == RowOff(4 * w, r)
  {
    if r == 0 then [] else Written(px, w, h, flip, r - 1) + RowToWrite(px, w, h, flip, r - 1)
  }

  lemma {:induction false} WrittenRow(px: seq<byte>, w: nat, h: nat, flip: bool, r: nat, j: nat)
    requires |px| == RowOff(4 * w, h) && j < r <= h
    ensures RowAt(Written(px, w, h, flip, r), 4 * w, r, j) == RowToWrite(px, w, h, flip, j)
  {
    if j < r - 1 {
      WrittenRow(px, w, h, flip, r - 1, j);
      RowOffMono(4 * w, j, r - 1);
    }
  }

  lemma WrittenIs(px: seq<byte>, w: nat, h: nat, flip: bool)
    requires |px| == RowOff(4 * w, h)
    ensures Written(px, w, h, flip, h) == if flip then Flipped(px, 4 * w, h) else px
  {
    hide Written, RowAt;
    var t := if flip then Flipped(px, 4 * w, h) else px;
    forall j | 0 <= j < h ensures RowAt(Written(px, w, h, flip, h), 4 * w, h, j) == RowAt(t, 4 * w, h, j) {
      WrittenRow(px, w, h, flip, h, j);
      if flip {
        FlipRow(px, 4 * w, h, h, j);
      }
    }
    RowsDetermine(Written(px, w, h, flip, h), t, 4 * w, h);
  }

  /** What is written of an image: scanline codes, or the pixels themselves. */
  ghost predicate Coded(px: seq<byte>, w: nat, h: nat, flip: bool, rows: seq<seq<byte>>)
    requires |px| == RowOff(4 * w, h) && w < 0x1_0000 && |rows| <= h
  {
    forall r :: 0 <= r < |rows| ==> CodedRow(RowToWrite(px, w, h, flip, r), w, rows[r])
  }

  ghost predicate CodedRow(px: seq<byte>, w: nat, out: seq<byte>)
    requires |px| == 4 * w && w < 0x1_0000
  {
    exists ps :: Encodes(px, w, out, ps)
  }

  lemma CodedPush(px: seq<byte>, w: nat, h: nat, flip: bool, rows: seq<seq<byte>>, row: seq<byte>, ps: seq<seq<Packet>>)
    requires |px| == RowOff(4 * w, h) && w < 0x1_0000 && |rows| < h && Coded(px, w, h, flip, rows)
    requires Encodes(RowToWrite(px, w, h, flip, |rows|), w, row, ps)
    ensures Coded(px, w, h, flip, rows + [row])
  {
    hide CodedRow, RowToWrite;
    assert CodedRow(RowToWrite(px, w, h, flip, |rows|), w, row) by {
      CodedRowIs(RowToWrite(px, w, h, flip, |rows|), w, row, ps);
    }
  }

  lemma CodedRowIs(px: seq<byte>, w: nat, out: seq<byte>, ps: seq<seq<Packet>>)
    requires |px| == 4 * w && w < 0x1_0000 && Encodes(px, w, out, ps)
    ensures CodedRow(px, w, out)
  {
  }

  function Concat(rows: seq<seq<byte>>): seq<byte>
  {
    if rows == [] then [] else rows[0] + Concat(rows[1..])
  }

  lemma {:induction false} ConcatPush(rows: seq<seq<byte>>, row: seq<byte>)
    ensures Concat(rows + [row]) == Concat(rows) + row
    decreases |rows|
  {
    if rows == [] {
      assert Concat([row]) == row + Concat([]);
    } else {
      assert (rows + [row])[1..] == rows[1..] + [row];
      ConcatPush(rows[1..], row);
      assert rows[0] + (Concat(rows[1..]) + row) == Concat(rows) + row;
    }
  }

  /** Reading the scanlines from row j on. */
  lemma {:induction false} RowsRead(s: seq<byte>, pos: nat, px: seq<byte>, w: nat, h: nat, flip: bool,
                                    rows: seq<seq<byte>>, j: nat)
    requires RunLength(w) && |px| == RowOff(4 * w, h) && j <= h == |rows| && Coded(px, w, h, flip, rows)
    requires At(s, pos, Concat(rows[j..]))
    ensures Scanlines(s, pos, w, h, j, Written(px, w, h, flip, j)) == Loaded(Written(px, w, h, flip, h))
    decreases h - j
  {
    hide At, Encodes, Scanline, RowToWrite, FlatPixels, Get8;
    if j < h {
      var row := RowToWrite(px, w, h, flip, j);
      var ps :| Encodes(row, w, rows[j], ps);
      assert rows[j..][1..] == rows[j + 1..];
      AtSplit(s, pos, rows[j], Concat(rows[j + 1..]));
      ScanlineReads(s, pos, row, w, rows[j], ps);
      RowsRead(s, pos + |rows[j]|, px, w, h, flip, rows, j + 1);
    }
  }

  /**
    The pixel part of stbi_write_hdr_core.  Reading it back at any place in a file gives
    the RGBE image, upside down when the writer was told to flip.
  */
  method WriteImage(px: seq<byte>, w: nat, h: nat, flip: bool) returns (out: seq<byte>)
    requires |px| == RowOff(4 * w, h)
    ensures forall s, pos: nat {:trigger At(s, pos, out)} :: At(s, pos, out) ==>
      LoadPixels(s, pos, w, h) == Loaded(if flip then Flipped(px, 4 * w, h) else px)
  {
    out := [];
    ghost var rows: seq<seq<byte>> := [];
    for i := 0 to h
      invariant |rows| == i
      invariant if RunLength(w) then out == Concat(rows) && Coded(px, w, h, flip, rows)
                else out == Written(px, w, h, flip, i)
    {
      hide Encodes, RowAt, Ceil, Coded;
      var row := RowAt(px, 4 * w, h, if flip then h - 1 - i else i);
      var bytes;
      ghost var ps;
      bytes, ps := WriteScanline(row, w);
      ConcatPush(rows, bytes);
      if RunLength(w) {
        CodedPush(px, w, h, flip, rows, bytes, ps);
      }
      out := out + bytes;
      rows := rows + [bytes];
    }
    forall s, pos: nat {:trigger At(s, pos, out)} | At(s, pos, out)
      ensures LoadPixels(s, pos, w, h) == Loaded(if flip then Flipped(px, 4 * w, h) else px)
    {
      ImageReads(s, pos, px, w, h, flip, rows, out);
    }
  }

  lemma ImageReads(s: seq<byte>, pos: nat, px: seq<byte>, w: nat, h: nat, flip: bool,
                   rows: seq<seq<byte>>, out: seq<byte>)
    requires |px| == RowOff(4 * w, h) && |rows| == h && At(s, pos, out)
    requires if RunLength(w) then out == Concat(rows) && Coded(px, w, h, flip, rows)
             else out == Written(px, w, h, flip, h)
    ensures LoadPixels(s, pos, w, h) == Loaded(if flip then Flipped(px, 4 * w, h) else px)
  {
    hide Scanlines, Coded, Flipped, Concat;
    WrittenIs(px, w, h, flip);
    if RunLength(w) {
      assert rows[0..] == rows;
      RowsRead(s, pos, px, w, h, flip, rows, 0);
    } else {
      ReadAt(s, pos, out);
    }
  }
}
