/** Facts about the TX ring as values: which slot holds which descriptor of the stream, and where in
    the stream a packet ends. */
module TxRing {
  import opened Common
  import opened Ring
  import opened TxStream
  import opened TxMeaning

  /** A slot of the descriptor ring: handed to the DMA engine, or written back by it. The write-back
      keeps only the context and last marks of what was read. */
  datatype Slot = Read(d: Desc) | Written(context: bool, last: bool, error: bool)

  predicate Shows(s: Slot, d: Desc) {
    match s
    case Read(e) => e == d
    case Written(context, last, error) => context == d.Context? && last == IsLast(d)
  }

  datatype RingPacket = RingPacket(ignore: bool, fragIndex: nat, p: Packet)

  /** Where the fragments of a packet end in the fragment ring. */
  function FragmentEnd(r: RingPacket, ring: nat): nat {
    var f := r.fragIndex + |r.p.frags|;
    if f >= ring then f - ring else f
  }

  /** Where the fragments of the packets end, of which the ignored ones have none; `f` if all are ignored. */
  function FragmentsEnd(rs: seq<RingPacket>, f: nat, ring: nat): nat {
    if rs == [] then f else FragmentsEnd(rs[1..], if rs[0].ignore then f else FragmentEnd(rs[0], ring), ring)
  }

  /** In a ring that holds them, the fragments end inside it, as many steps further on. */
  lemma FragmentEndWraps(r: RingPacket, ring: nat)
    requires r.fragIndex < ring && |r.p.frags| <= ring
    ensures FragmentEnd(r, ring) < ring && FragmentEnd(r, ring) == (r.fragIndex + |r.p.frags|) % ring
  {
    var f := r.fragIndex + |r.p.frags|;
    if f >= ring { assert f == ring * 1 + (f - ring); Remainder(f - ring, ring); } else { Remainder(f, ring); }
  }

  lemma Remainder(n: nat, d: nat)
    requires n < d
    ensures n % d == n && (n + d) % d == n
  {
  }

  lemma FragmentsNext(r: RingPacket, rest: seq<RingPacket>, f: nat, ring: nat)
    ensures FragmentsEnd([r] + rest, f, ring) == FragmentsEnd(rest, if r.ignore then f else FragmentEnd(r, ring), ring)
  {
    assert ([r] + rest)[1..] == rest;
  }

  /** The packets that are to be sent, in ring order. */
  function Live(rs: seq<RingPacket>): seq<Packet> {
    if rs == [] then [] else (if rs[0].ignore then [] else [rs[0].p]) + Live(rs[1..])
  }

  predicate LiveSendable(rs: seq<RingPacket>) {
    forall r <- rs :: !r.ignore ==> Sendable(r.p) && HasPayload(r.p)
  }

  lemma SendableGrows(rs: seq<RingPacket>, r: RingPacket)
    requires LiveSendable(rs) && (!r.ignore ==> Sendable(r.p) && HasPayload(r.p))
    ensures LiveSendable(rs + [r])
  {
  }

  lemma {:induction false} LiveSnoc(rs: seq<RingPacket>, r: RingPacket)
    ensures Live(rs + [r]) == Live(rs) + (if r.ignore then [] else [r.p])
  {
    if rs == [] {
      assert rs + [r] == [r] && [r][1..] == [];
      assert Live([r]) == (if r.ignore then [] else [r.p]) + Live([]);
    } else {
      assert (rs + [r])[1..] == rs[1..] + [r];
      LiveSnoc(rs[1..], r);
    }
  }

  lemma {:induction false} LiveConcat(a: seq<RingPacket>, b: seq<RingPacket>)
    ensures Live(a + b) == Live(a) + Live(b)
  {
    if a == [] {
      assert a + b == b;
    } else {
      assert (a + b)[1..] == a[1..] + b;
      LiveConcat(a[1..], b);
    }
  }

  // ---- the stream, cut at packets ----

  lemma {:induction false} StreamSplit(a: seq<Packet>, b: seq<Packet>, vlanId: bv16, c: Cache)
    requires AllSendable(a) && AllSendable(b)
    ensures AllSendable(a + b)
    ensures FinalCache(a + b, vlanId, c) == FinalCache(b, vlanId, FinalCache(a, vlanId, c))
    ensures Stream(a + b, vlanId, c) == Stream(a, vlanId, c) + Stream(b, vlanId, FinalCache(a, vlanId, c))
    decreases |a|
  {
    hide PacketDescs;
    hide NextCache;
    assert forall p <- a + b :: p in a || p in b;
    if a == [] {
      assert a + b == b;
    } else {
      assert (a + b)[1..] == a[1..] + b;
      StreamSplit(a[1..], b, vlanId, NextCache(a[0], vlanId, c));
    }
  }

  lemma StreamOne(p: Packet, vlanId: bv16, c: Cache)
    requires Sendable(p) && HasPayload(p)
    ensures AllSendable([p]) && Stream([p], vlanId, c) == PacketDescs(p, vlanId, c)
    ensures FinalCache([p], vlanId, c) == NextCache(p, vlanId, c)
  {
    assert [p][1..] == [];
  }

  /** The length of the stream up to packet number k. */
  function Offset(ps: seq<Packet>, vlanId: bv16, k: nat): nat
    requires AllSendable(ps) && k <= |ps|
  {
    |Stream(ps[..k], vlanId, START)|
  }

  /** Inside packet number k of the stream, only the final descriptor is marked last. */
  lemma PacketEnds(ps: seq<Packet>, vlanId: bv16, k: nat)
    requires AllSendable(ps) && k < |ps|
    ensures var s := Stream(ps, vlanId, START);
      && Offset(ps, vlanId, k) < Offset(ps, vlanId, k + 1) <= |s|
      && forall i :: Offset(ps, vlanId, k) <= i < Offset(ps, vlanId, k + 1) ==>
           (IsLast(s[i]) <==> i == Offset(ps, vlanId, k + 1) - 1)
  {
    hide PacketDescs;
    hide Stream;
    var c := FinalCache(ps[..k], vlanId, START);
    var a, b, rest := Stream(ps[..k], vlanId, START), PacketDescs(ps[k], vlanId, c), ps[k + 1..];
    assert ps == ps[..k + 1] + rest && ps[..k + 1] == ps[..k] + [ps[k]];
    StreamSplit(ps[..k + 1], rest, vlanId, START);
    StreamOne(ps[k], vlanId, c);
    StreamSplit(ps[..k], [ps[k]], vlanId, START);
    PacketShape(ps[k], vlanId, c);
    var s := Stream(ps, vlanId, START);
    assert s[..Offset(ps, vlanId, k + 1)] == a + b;
    forall i | Offset(ps, vlanId, k) <= i < Offset(ps, vlanId, k + 1)
      ensures IsLast(s[i]) <==> i == Offset(ps, vlanId, k + 1) - 1
    {
      assert s[i] == (a + b)[i] == b[i - |a|];
    }
  }

  /** `count` packets are back and `at` descriptors taken back: descriptor `at` belongs to packet `count`. */
  predicate Position(ps: seq<Packet>, vlanId: bv16, count: nat, at: nat)
    requires AllSendable(ps)
  {
    && count <= |ps| && Offset(ps, vlanId, count) <= at <= |Stream(ps, vlanId, START)|
    && (count < |ps| ==> at < Offset(ps, vlanId, count + 1))
  }

  lemma WholeOffset(ps: seq<Packet>, vlanId: bv16)
    requires AllSendable(ps)
    ensures Offset(ps, vlanId, |ps|) == |Stream(ps, vlanId, START)|
  {
    assert ps[..|ps|] == ps;
  }

  /** One step of the walk over handed-back slots. */
  lemma StepOver(ps: seq<Packet>, vlanId: bv16, count: nat, at: nat)
    requires AllSendable(ps) && Position(ps, vlanId, count, at) && at < |Stream(ps, vlanId, START)|
    ensures count < |ps|
    ensures if IsLast(Stream(ps, vlanId, START)[at]) then Position(ps, vlanId, count + 1, at + 1)
            else Position(ps, vlanId, count, at + 1)
  {
    hide Stream;
    WholeOffset(ps, vlanId);
    PacketEnds(ps, vlanId, count);
    if count + 1 < |ps| { PacketEnds(ps, vlanId, count + 1); }
  }

  /** Queuing one more packet does not disturb the position in the stream. */
  lemma PositionExtends(ps: seq<Packet>, vlanId: bv16, p: Packet, count: nat, at: nat)
    requires AllSendable(ps) && Position(ps, vlanId, count, at) && Sendable(p) && HasPayload(p)
    ensures var q := ps + [p];
      && AllSendable(q)
      && Stream(q, vlanId, START) == Stream(ps, vlanId, START) + PacketDescs(p, vlanId, FinalCache(ps, vlanId, START))
      && FinalCache(q, vlanId, START) == NextCache(p, vlanId, FinalCache(ps, vlanId, START))
      && Position(q, vlanId, count, at)
  {
    hide Stream;
    hide FinalCache;
    hide PacketDescs;
    hide NextCache;
    var q := ps + [p];
    var c := FinalCache(ps, vlanId, START);
    StreamOne(p, vlanId, c);
    StreamSplit(ps, [p], vlanId, START);
    assert q[..count] == ps[..count];
    if count < |ps| {
      assert q[..count + 1] == ps[..count + 1];
    } else {
      assert q[..count + 1] == q && ps[..count] == ps;
      PacketShape(p, vlanId, c);
    }
  }

  lemma {:induction false} NothingSent(s: State, ds: seq<Desc>)
    requires forall d <- ds :: !IsLast(d)
    ensures ConsumeAll(s, ds).sent == s.sent
    decreases |ds|
  {
    if ds != [] {
      assert ds[0] in ds;
      NothingSent(Consume(s, ds[0]), ds[1..]);
    }
  }

  /** The packets given back are exactly those the device has sent: from any device, reading the
      descriptors that were taken back transmits the frames of the returned packets and no other. */
  lemma ReturnedAreTransmitted(dev: Device, ps: seq<Packet>, vlanId: bv16, count: nat, at: nat)
    requires AllSendable(ps) && Position(ps, vlanId, count, at)
    ensures AllSendable(ps[..count])
    ensures ConsumeAll(State(dev, None, [], false), Stream(ps, vlanId, START)[..at]).sent == ExpectedAll(ps[..count], vlanId)
  {
    hide Stream;
    hide ExpectedAll;
    hide ConsumeAll;
    var s0 := State(dev, None, [], false);
    var all, a := Stream(ps, vlanId, START), Stream(ps[..count], vlanId, START);
    assert ps == ps[..count] + ps[count..];
    StreamSplit(ps[..count], ps[count..], vlanId, START);
    QueueMeaning(dev, ps[..count], vlanId);
    var part := all[|a|..at];
    assert all[..at] == a + part;
    ConsumeConcat(s0, a, part);
    if count < |ps| {
      PacketEnds(ps, vlanId, count);
    } else {
      WholeOffset(ps, vlanId);
    }
    NothingSent(ConsumeAll(s0, a), part);
  }

  // ---- the ring as a window on the stream ----

  /** From `begin` on, `count` slots show the stream `s` from `at` to its end. */
  predicate Window(slots: seq<Slot>, begin: nat, count: nat, s: seq<Desc>, at: nat)
    requires begin < |slots|
  {
    && count <= |slots| && at + count == |s|
    && forall i :: 0 <= i < count ==> Shows(Slice(slots, begin, count)[i], s[at + i])
  }

  lemma WindowAt(slots: seq<Slot>, begin: nat, count: nat, s: seq<Desc>, at: nat, i: nat)
    requires begin < |slots| && Window(slots, begin, count, s, at) && i < count
    ensures at + count == |s| && Slice(slots, begin, count)[i] == slots[Wrap(begin + i, |slots|)]
    ensures Shows(slots[Wrap(begin + i, |slots|)], s[at + i])
  {
    assert Shows(Slice(slots, begin, count)[i], s[at + i]);
  }

  /** The number of slots at the head of the region that the DMA engine has handed back. */
  function HandedBack(region: seq<Slot>): (r: nat)
    ensures r <= |region| && (r < |region| ==> region[r].Read?)
    ensures forall i :: 0 <= i < r ==> region[i].Written?
  {
    if region == [] || region[0].Read? then 0 else 1 + HandedBack(region[1..])
  }

  lemma {:induction false} HandedBackIs(region: seq<Slot>, k: nat)
    requires k <= |region| && (k < |region| ==> region[k].Read?)
    requires forall i :: 0 <= i < k ==> region[i].Written?
    ensures HandedBack(region) == k
  {
    if k > 0 { HandedBackIs(region[1..], k - 1); }
  }

  function Reads(ds: seq<Desc>): seq<Slot> {
    seq(|ds|, i requires 0 <= i < |ds| => Read(ds[i]))
  }

  /** The ring after `ds` was written from index `at` on. */
  function WriteAll(slots: seq<Slot>, at: nat, ds: seq<Desc>): (r: seq<Slot>)
    requires at < |slots| && |ds| <= |slots|
    ensures |r| == |slots|
    decreases |ds|
  {
    if ds == [] then slots
    else
      var n := |ds| - 1;
      WriteAll(slots, at, ds[..n])[Wrap(at + n, |slots|) := Read(ds[n])]
  }

  lemma WriteSnoc(slots: seq<Slot>, at: nat, ds: seq<Desc>, d: Desc)
    requires at < |slots| && |ds| < |slots|
    ensures WriteAll(slots, at, ds + [d]) == WriteAll(slots, at, ds)[Wrap(at + |ds|, |slots|) := Read(d)]
  {
    assert (ds + [d])[..|ds|] == ds;
  }

  lemma {:induction false} WriteExtends(slots: seq<Slot>, begin: nat, count: nat, ds: seq<Desc>)
    requires begin < |slots| && count + |ds| <= |slots| && count < |slots|
    ensures Slice(WriteAll(slots, Wrap(begin + count, |slots|), ds), begin, count + |ds|)
      == Slice(slots, begin, count) + Reads(ds)
    decreases |ds|
  {
    if ds != [] {
      var n := |ds| - 1;
      var at := Wrap(begin + count, |slots|);
      WriteExtends(slots, begin, count, ds[..n]);
      var w := WriteAll(slots, at, ds[..n]);
      assert Wrap(at + n, |slots|) == Wrap(begin + (count + n), |slots|);
      SliceAppend(w, begin, count + n, Read(ds[n]));
      assert Reads(ds[..n]) + [Read(ds[n])] == Reads(ds);
    }
  }

  /** Writing the next descriptors of the stream after the window keeps it one. */
  lemma WindowExtends(slots: seq<Slot>, begin: nat, count: nat, s: seq<Desc>, at: nat, ds: seq<Desc>)
    requires begin < |slots| && Window(slots, begin, count, s, at)
    requires count + |ds| <= |slots| && count < |slots|
    ensures Window(WriteAll(slots, Wrap(begin + count, |slots|), ds), begin, count + |ds|, s + ds, at)
  {
    WriteExtends(slots, begin, count, ds);
  }

  /** Dropping slots from the front of the window. */
  lemma WindowDrops(slots: seq<Slot>, begin: nat, count: nat, s: seq<Desc>, at: nat, k: nat)
    requires begin < |slots| && Window(slots, begin, count, s, at) && k <= count && k < |slots|
    ensures Window(slots, Wrap(begin + k, |slots|), count - k, s, at + k)
  {
    SliceDrop(slots, begin, k, count);
  }

  /** Replacing a slot by another one that shows the same descriptor. */
  lemma WindowReplaces(slots: seq<Slot>, begin: nat, count: nat, s: seq<Desc>, at: nat, k: nat, t: Slot)
    requires begin < |slots| && Window(slots, begin, count, s, at) && k < count && Shows(t, s[at + k])
    ensures Window(slots[Wrap(begin + k, |slots|) := t], begin, count, s, at)
  {
    hide Shows;
    var after := slots[Wrap(begin + k, |slots|) := t];
    var a, b := Slice(slots, begin, count), Slice(after, begin, count);
    forall i | 0 <= i < count
      ensures Shows(b[i], s[at + i])
    {
      assert Shows(a[i], s[at + i]);
      if i != k {
        assert Wrap(begin + i, |slots|) != Wrap(begin + k, |slots|);
      }
    }
  }
}
