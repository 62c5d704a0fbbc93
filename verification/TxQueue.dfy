/** The TX queue of dwc_eqos: the driver's view of the descriptor ring and the packet ring, updated in
    place by TxQueueAdvance while the DMA engine hands slots back and the framework adds packets. */
module TxQueue {
  import opened Common
  import opened Ring
  import opened TxStream
  import opened TxMeaning
  import opened TxRing

  class Queue {
    const vlanId: bv16
    const slots: array<Slot>             // descVirtual
    const packets: array<RingPacket>     // packetRing
    const fragRing: nat                  // size of the fragment ring
    var pktBegin: nat
    var pktNext: nat
    var pktEnd: nat
    var fragBegin: nat
    var lastMss: nat
    var lastVlanTag: bv16
    var descBegin: nat
    var descEnd: nat

    ghost var queued: seq<Packet>        // every packet handed to the device so far, in order
    ghost var returned: nat              // how many of them were returned to the framework
    ghost var reclaimed: nat             // how many descriptors of their stream were taken back

    predicate Bounds()
      reads this
    {
      && slots.Length >= 64 && packets.Length >= 1
      && descBegin < slots.Length && descEnd < slots.Length
      && pktBegin < packets.Length && pktNext < packets.Length && pktEnd < packets.Length
      && Count(pktBegin, pktNext, packets.Length) <= Count(pktBegin, pktEnd, packets.Length)
    }

    /** The TRANSMIT region: descriptors not yet taken back. */
    function Outstanding(): nat
      requires Bounds()
      reads this
    {
      Count(descBegin, descEnd, slots.Length)
    }

    /** Ring packets from one index to another. */
    function Between(from: nat, to: nat): seq<RingPacket>
      requires from < packets.Length && to < packets.Length
      reads packets
    {
      Slice(packets[..], from, Count(from, to, packets.Length))
    }

    ghost function TheStream(): seq<Desc>
      requires AllSendable(queued)
      reads this
    {
      Stream(queued, vlanId, START)
    }

    ghost predicate Valid()
      reads this, slots, packets
    {
      && Bounds() && AllSendable(queued)
      && LiveSendable(Between(pktBegin, pktEnd))
      && Cache(lastMss, lastVlanTag) == FinalCache(queued, vlanId, START)
      && Position(queued, vlanId, returned, reclaimed)
      && Live(Between(pktBegin, pktNext)) == queued[returned..]
      && Window(slots[..], descBegin, Outstanding(), TheStream(), reclaimed)
    }

    /** The refinement: whatever was done so far, the slots of the TRANSMIT region show exactly the
        descriptors of the packets in [BeginIndex, NextIndex), in order, the first possibly part-done. */
    lemma RegionIsUnfinishedPackets()
      requires Valid()
      ensures var live := Live(Between(pktBegin, pktNext));
        var c := FinalCache(queued[..returned], vlanId, START);
        var part := reclaimed - Offset(queued, vlanId, returned);
        && AllSendable(live) && 0 <= part
        && Outstanding() == |Stream(live, vlanId, c)| - part
        && (forall i :: 0 <= i < Outstanding() ==>
              Shows(Slice(slots[..], descBegin, Outstanding())[i], Stream(live, vlanId, c)[part + i]))
        && (live == [] <==> Outstanding() == 0)
        && (live != [] ==> part < |PacketDescs(live[0], vlanId, c)|)
    {
      hide Stream;
      hide PacketDescs;
      hide FinalCache;
      hide NextCache;
      hide Shows;
      hide Slice;
      hide Live;
      hide LiveSendable;
      hide Sendable;
      var a, b := queued[..returned], queued[returned..];
      assert queued == a + b;
      StreamSplit(a, b, vlanId, START);
      var c := FinalCache(a, vlanId, START);
      if b != [] {
        PacketEnds(queued, vlanId, returned);
        StreamOne(b[0], vlanId, c);
        assert queued[..returned + 1] == a + [b[0]];
        StreamSplit(a, [b[0]], vlanId, START);
      } else {
        assert queued[..returned] == queued;
        EmptyStream(c);
      }
      forall i | 0 <= i < Outstanding()
        ensures Shows(Slice(slots[..], descBegin, Outstanding())[i], Stream(b, vlanId, c)[reclaimed - Offset(queued, vlanId, returned) + i])
      {
        assert TheStream()[reclaimed + i] == Stream(b, vlanId, c)[reclaimed - Offset(queued, vlanId, returned) + i];
      }
    }

    /** Whatever the device was like at the start: reading the descriptors taken back so far has made it
        transmit exactly the packets returned so far. */
    lemma ReturnedWereSent(dev: Device)
      requires Valid()
      ensures returned <= |queued| && AllSendable(queued[..returned]) && reclaimed <= |TheStream()|
      ensures ConsumeAll(State(dev, None, [], false), TheStream()[..reclaimed]).sent == ExpectedAll(queued[..returned], vlanId)
      ensures var sent := ConsumeAll(State(dev, None, [], false), TheStream()[..reclaimed]).sent;
        |sent| == returned && forall k: nat | k < returned :: Carries(sent[k], queued[k], vlanId)
    {
      hide Carries;
      ReturnedAreTransmitted(dev, queued, vlanId, returned, reclaimed);
      ExpectedFrames(queued[..returned], vlanId);
    }

    lemma EmptyStream(c: Cache)
      ensures Stream([], vlanId, c) == []
    {
    }

    /** TxQueueStart on empty rings. */
    constructor (slotCount: nat, firstSlot: Slot, ring: array<RingPacket>, fragRing: nat, vlanId: bv16)
      requires slotCount >= 64 && ring.Length >= 1
      ensures Valid() && fresh(slots) && slots.Length == slotCount && packets == ring && this.vlanId == vlanId
      ensures queued == [] && pktBegin == pktNext == pktEnd == 0
    {
      this.vlanId, this.fragRing := vlanId, fragRing;
      slots := new Slot[slotCount](i => firstSlot);
      packets := ring;
      pktBegin, pktNext, pktEnd, fragBegin := 0, 0, 0, 0;
      lastMss, lastVlanTag := 0xFFFF, 0;
      descBegin, descEnd := 0, 0;
      queued, returned, reclaimed := [], 0, 0;
    }

    // ---- the other parties ----

    /** The DMA engine hands back slot number k of the TRANSMIT region. */
    method Complete(k: nat, error: bool)
      requires Valid() && k < Outstanding()
      modifies slots
      ensures Valid() && var at := Wrap(descBegin + k, slots.Length);
        slots[at].Written? && slots[..] == old(slots[..])[at := slots[at]]
    {
      hide Stream;
      hide FinalCache;
      hide Live;
      hide LiveSendable;
      var at := Wrap(descBegin + k, slots.Length);
      if slots[at].Read? {
        var d := slots[at].d;
        assert Shows(Slice(slots[..], descBegin, Outstanding())[k], TheStream()[reclaimed + k]);
        WindowReplaces(slots[..], descBegin, Outstanding(), TheStream(), reclaimed, k, Written(d.Context?, IsLast(d), error));
        slots[at] := Written(d.Context?, IsLast(d), error);
      }
    }

    /** The framework appends a packet. */
    method Give(r: RingPacket)
      requires Valid() && Next(pktEnd, packets.Length) != pktBegin
      requires !r.ignore ==> Sendable(r.p) && HasPayload(r.p)
      modifies this`pktEnd, packets
      ensures Valid() && pktEnd == Next(old(pktEnd), packets.Length)
      ensures Between(pktBegin, pktEnd) == old(Between(pktBegin, pktEnd)) + [r]
    {
      hide Stream;
      hide FinalCache;
      hide Live;
      hide Window;
      hide Offset;
      hide Slice;
      hide Position;
      hide LiveSendable;
      hide AllSendable;
      hide Sendable;
      hide HasPayload;
      ghost var before := packets[..];
      ghost var n, m := Count(pktBegin, pktEnd, packets.Length), Count(pktBegin, pktNext, packets.Length);
      packets[pktEnd] := r;
      SliceAppend(before, pktBegin, n, r);
      pktEnd := Next(pktEnd, packets.Length);
      CountIs(pktBegin, n + 1, packets.Length);
      SliceTake(before, pktBegin, m, n);
      SliceTake(packets[..], pktBegin, m, n + 1);
      SendableGrows(Slice(before, pktBegin, n), r);
      assert Between(pktBegin, pktNext) == Between(pktBegin, pktEnd)[..m] == Slice(before, pktBegin, n)[..m];
    }

    // ---- TxQueueAdvance: indicate transmitted packets ----

    /** Skips ignored packets from `index` on; on a packet to be sent, its first fragment is returned. */
    method SkipIgnorePackets(index: nat, fragIndex: nat) returns (i: nat, f: nat)
      requires Bounds() && index < packets.Length
      requires Count(index, pktNext, packets.Length) <= Count(pktBegin, pktNext, packets.Length)
      ensures i < packets.Length
      ensures Count(i, pktNext, packets.Length) <= Count(index, pktNext, packets.Length)
      ensures Live(Between(i, pktNext)) == Live(Between(index, pktNext))
      ensures i == pktNext ==> f == fragIndex
      ensures i != pktNext ==> !packets[i].ignore && f == packets[i].fragIndex
      ensures FragmentsEnd(Between(i, pktNext), f, fragRing) == FragmentsEnd(Between(index, pktNext), fragIndex, fragRing)
    {
      hide FragmentsEnd;
      hide Between;
      i, f := index, fragIndex;
      while i != pktNext
        invariant i < packets.Length && f == fragIndex
        invariant Count(i, pktNext, packets.Length) <= Count(index, pktNext, packets.Length)
        invariant Live(Between(i, pktNext)) == Live(Between(index, pktNext))
        invariant FragmentsEnd(Between(i, pktNext), f, fragRing) == FragmentsEnd(Between(index, pktNext), fragIndex, fragRing)
        decreases Count(i, pktNext, packets.Length)
      {
        FirstBetween(i, pktNext);
        FragmentsNext(packets[i], Between(Next(i, packets.Length), pktNext), f, fragRing);
        FragmentsNext(packets[i], Between(Next(i, packets.Length), pktNext), packets[i].fragIndex, fragRing);
        if !packets[i].ignore {
          f := packets[i].fragIndex;
          return;
        }
        i := Next(i, packets.Length);
      }
    }

    lemma FirstBetween(i: nat, to: nat)
      requires i < packets.Length && to < packets.Length && i != to
      ensures var n := Next(i, packets.Length);
        && Count(n, to, packets.Length) == Count(i, to, packets.Length) - 1
        && Between(i, to) == [packets[i]] + Between(n, to)
        && Live(Between(i, to)) == (if packets[i].ignore then [] else [packets[i].p]) + Live(Between(n, to))
    {
      var b := Between(i, to);
      var n := Next(i, packets.Length);
      var k := Count(i, to, packets.Length);
      CountIs(n, k - 1, packets.Length);
      SliceDrop(packets[..], i, 1, k);
      assert b[0] == packets[..][Wrap(i + 0, packets.Length)];
      assert Between(n, to) == b[1..] && b[0] == packets[i];
      assert b == [b[0]] + b[1..];
    }

    /** Past a completed packet to the next one that is to be sent. */
    method NextPacket(index: nat, ghost was: nat) returns (i: nat, f: nat)
      requires Bounds() && index < packets.Length && index != pktNext && !packets[index].ignore
      requires Count(index, pktNext, packets.Length) <= Count(pktBegin, pktNext, packets.Length)
      ensures i < packets.Length
      ensures Count(i, pktNext, packets.Length) < Count(index, pktNext, packets.Length)
      ensures Live(Between(index, pktNext)) == [packets[index].p] + Live(Between(i, pktNext))
      ensures i != pktNext ==> !packets[i].ignore && f == packets[i].fragIndex
      ensures FragmentsEnd(Between(i, pktNext), f, fragRing) == FragmentsEnd(Between(index, pktNext), was, fragRing)
    {
      hide FragmentsEnd;
      hide Between;
      var pkt := packets[index];
      FirstBetween(index, pktNext);
      FragmentsNext(pkt, Between(Next(index, packets.Length), pktNext), was, fragRing);
      f := pkt.fragIndex + |pkt.p.frags|;
      if f >= fragRing { f := f - fragRing; }
      i, f := SkipIgnorePackets(Next(index, packets.Length), f);
    }

    /** The TRANSMIT region's slots, in ring order. */
    function Region(): seq<Slot>
      requires Bounds()
      reads this, slots
    {
      Slice(slots[..], descBegin, Outstanding())
    }

    /** The loop state of the walk: `done` slots from descBegin on were handed back, `back` packets are
        finished, and the walk stands at these indices. */
    ghost predicate Walking(descIndex: nat, pktIndex: nat, pktFragIndex: nat, done: nat, back: nat)
      reads this, slots, packets
    {
      && Bounds() && AllSendable(queued)
      && done <= Outstanding() && descIndex == Wrap(descBegin + done, slots.Length)
      && (forall i :: 0 <= i < done ==> Region()[i].Written?)
      && returned <= back <= |queued| && Position(queued, vlanId, back, reclaimed + done)
      && pktIndex < packets.Length
      && Count(pktIndex, pktNext, packets.Length) <= Count(pktBegin, pktNext, packets.Length)
      && Live(Between(pktIndex, pktNext)) == queued[back..]
      && (pktIndex != pktNext ==> !packets[pktIndex].ignore && pktFragIndex == packets[pktIndex].fragIndex)
      && FragmentsEnd(Between(pktIndex, pktNext), pktFragIndex, fragRing)
         == FragmentsEnd(Between(pktBegin, pktNext), fragBegin, fragRing)
    }

    /** One handed-back descriptor: only a last one finishes a packet. */
    method WalkOne(desc: Slot, descIndex: nat, pktIndex: nat, pktFragIndex: nat, ghost done: nat, ghost back: nat)
      returns (p: nat, f: nat, ghost b: nat)
      requires Walking(descIndex, pktIndex, pktFragIndex, done, back) && descIndex != descEnd
      requires desc == slots[descIndex] && desc.Written?
      requires Window(slots[..], descBegin, Outstanding(), TheStream(), reclaimed)
      ensures Walking(Next(descIndex, slots.Length), p, f, done + 1, b)
    {
      hide Stream;
      hide FinalCache;
      hide Live;
      hide AllSendable;
      hide Position;
      hide Window;
      hide Shows;
      hide FragmentsEnd;
      p, f, b := pktIndex, pktFragIndex, back;
      CountIs(descBegin, done, slots.Length);
      WindowAt(slots[..], descBegin, Outstanding(), TheStream(), reclaimed, done);
      StepOver(queued, vlanId, back, reclaimed + done);
      WrittenMarks(desc, TheStream()[reclaimed + done]);
      if desc.context {
        return;
      }
      if desc.last {
        SomeLive(pktIndex);
        p, f := NextPacket(pktIndex, pktFragIndex);
        assert queued[back + 1..] == queued[back..][1..];
        b := back + 1;
      }
    }

    /** Walks over the handed-back prefix of the region. */
    method WalkHandedBack() returns (descIndex: nat, pktIndex: nat, pktFragIndex: nat, ghost done: nat, ghost back: nat)
      requires Valid()
      ensures Walking(descIndex, pktIndex, pktFragIndex, done, back) && done == HandedBack(Region())
    {
      hide Stream;
      hide FinalCache;
      hide Live;
      hide AllSendable;
      hide Window;
      hide HandedBack;
      hide FragmentsEnd;
      pktIndex, pktFragIndex := SkipIgnorePackets(pktBegin, fragBegin);
      descIndex := descBegin;
      done, back := 0, returned;
      while descIndex != descEnd
        invariant Walking(descIndex, pktIndex, pktFragIndex, done, back)
        decreases Outstanding() - done
      {
        var desc := slots[descIndex];
        if desc.Read? {
          break;
        }
        pktIndex, pktFragIndex, back := WalkOne(desc, descIndex, pktIndex, pktFragIndex, done, back);
        descIndex := Next(descIndex, slots.Length);
        done := done + 1;
      }
      if done < Outstanding() { CountIs(descBegin, done, slots.Length); }
      HandedBackIs(Region(), done);
    }

    lemma WrittenMarks(slot: Slot, d: Desc)
      requires Shows(slot, d) && slot.Written?
      ensures slot.context ==> !slot.last
      ensures slot.last <==> IsLast(d)
    {
    }

    lemma SomeLive(i: nat)
      requires Bounds() && i < packets.Length && Live(Between(i, pktNext)) != []
      ensures i != pktNext
    {
      assert Count(i, i, packets.Length) == 0;
    }

    /** First half of TxQueueAdvance: takes back the handed-back prefix of the region and returns exactly
        the packets whose last descriptor lies in it, and ignored ones around them. */
    method ReturnTransmitted()
      requires Valid()
      modifies this`descBegin, this`pktBegin, this`fragBegin, this`returned, this`reclaimed
      ensures Valid()
      ensures reclaimed == old(reclaimed) + old(HandedBack(Region()))
      ensures Outstanding() == old(Outstanding()) - old(HandedBack(Region()))
      ensures returned >= old(returned)
      ensures Count(pktBegin, pktNext, packets.Length) <= old(Count(pktBegin, pktNext, packets.Length))
      ensures if pktBegin == pktNext then fragBegin == old(FragmentsEnd(Between(pktBegin, pktNext), fragBegin, fragRing))
              else !packets[pktBegin].ignore && fragBegin == packets[pktBegin].fragIndex
      ensures Outstanding() > 0 ==> slots[descBegin].Read?
    {
      hide Stream;
      hide FinalCache;
      hide Live;
      hide LiveSendable;
      hide Position;
      hide Window;
      hide HandedBack;
      hide FragmentsEnd;
      NothingAfter(pktNext);
      var descIndex, pktIndex, pktFragIndex;
      ghost var done, back;
      descIndex, pktIndex, pktFragIndex, done, back := WalkHandedBack();
      NoneLeft(pktFragIndex);
      WindowDrops(slots[..], descBegin, Outstanding(), TheStream(), reclaimed, done);
      Later(pktIndex);
      pktBegin := pktIndex;
      fragBegin := pktFragIndex;
      descBegin := descIndex;
      returned, reclaimed := back, reclaimed + done;
    }

    lemma NothingAfter(i: nat)
      requires Bounds() && i < packets.Length
      ensures Between(i, i) == []
    {
    }

    lemma NoneLeft(f: nat)
      ensures FragmentsEnd([], f, fragRing) == f
    {
    }

    /** Moving the start of the packet window forward, at most to NextIndex. */
    lemma Later(i: nat)
      requires Bounds() && i < packets.Length && LiveSendable(Between(pktBegin, pktEnd))
      requires Count(i, pktNext, packets.Length) <= Count(pktBegin, pktNext, packets.Length)
      ensures Count(i, pktNext, packets.Length) <= Count(i, pktEnd, packets.Length)
      ensures LiveSendable(Between(i, pktEnd))
    {
      var k := Count(pktBegin, pktNext, packets.Length) - Count(i, pktNext, packets.Length);
      assert i == Wrap(pktBegin + k, packets.Length);
      SliceDrop(packets[..], pktBegin, k, Count(pktBegin, pktEnd, packets.Length));
      assert Between(i, pktEnd) == Between(pktBegin, pktEnd)[k..];
    }

    // ---- TxQueueAdvance: fill more descriptors ----

    /** Writes one descriptor of a packet: `w` are the ones written before it from `at` on. */
    method Put(ghost before: seq<Slot>, ghost at: nat, ghost w: seq<Desc>, index: nat, d: Desc) returns (next: nat)
      requires at < slots.Length == |before| && |w| < slots.Length && index == Wrap(at + |w|, slots.Length)
      requires slots[..] == WriteAll(before, at, w)
      modifies slots
      ensures slots[..] == WriteAll(before, at, w + [d])
      ensures next == Next(index, slots.Length) == Wrap(Wrap(at + |w|, slots.Length) + 1, slots.Length)
      ensures |w| + 1 < slots.Length ==> next == Wrap(at + |w + [d]|, slots.Length)
    {
      WriteSnoc(before, at, w, d);
      slots[index] := Read(d);
      next := Next(index, slots.Length);
    }

    /** The size of an offload packet and the number of data descriptors it may need. */
    method Measure(p: Packet) returns (packetLength: nat, userDescriptors: nat)
      ensures packetLength == Sum(p.frags) && userDescriptors == UserDescriptors(p.frags)
    {
      packetLength, userDescriptors := 0, 0;
      for i := 0 to |p.frags|
        invariant packetLength + Sum(p.frags[i..]) == Sum(p.frags)
        invariant userDescriptors + UserDescriptors(p.frags[i..]) == UserDescriptors(p.frags)
      {
        assert p.frags[i..][1..] == p.frags[i + 1..];
        packetLength := packetLength + p.frags[i].len;
        userDescriptors := userDescriptors + (p.frags[i].len + LENGTH_MAX - 1) / LENGTH_MAX;
      }
    }

    /** The rest of one fragment of an offload packet, in pieces of at most 14 bits. */
    method WriteFragment(ghost before: seq<Slot>, ghost at: nat, ghost w0: seq<Desc>, index: nat, frag: Fragment,
                         start: nat, insertTag: bool, lastFrag: bool) returns (next: nat)
      requires start <= frag.len
      requires at < slots.Length == |before|
      requires |w0| + |Pieces(frag, start, insertTag, lastFrag)| < slots.Length && index == Wrap(at + |w0|, slots.Length)
      requires slots[..] == WriteAll(before, at, w0)
      modifies slots
      ensures slots[..] == WriteAll(before, at, w0 + Pieces(frag, start, insertTag, lastFrag))
      ensures next == Wrap(at + |w0 + Pieces(frag, start, insertTag, lastFrag)|, slots.Length)
    {
      hide WriteAll;
      ghost var all := w0 + Pieces(frag, start, insertTag, lastFrag);
      ghost var w := w0;
      next := index;
      var fragPos: nat := start;
      while fragPos != frag.len
        invariant fragPos <= frag.len
        invariant w + Pieces(frag, fragPos, insertTag, lastFrag) == all
        invariant slots[..] == WriteAll(before, at, w) && next == Wrap(at + |w|, slots.Length)
        decreases frag.len - fragPos
      {
        var n := Min(frag.len - fragPos, LENGTH_MAX);
        var last := fragPos + n == frag.len && lastFrag;
        var d := Data(frag.addr + fragPos, n, insertTag, last, 0, NoChecksum, last, false);
        ghost var more := Pieces(frag, fragPos + n, insertTag, lastFrag);
        assert w + ([d] + more) == w + [d] + more;
        next := Put(before, at, w, next, d);
        w := w + [d];
        fragPos := fragPos + n;
      }
      assert w + [] == w;
    }

    /** The payload of an offload packet: `start` skips the headers in the first fragment. */
    method WriteTsoData(ghost before: seq<Slot>, ghost at: nat, ghost w0: seq<Desc>, index: nat, frags: seq<Fragment>,
                        start: nat, insertTag: bool) returns (next: nat)
      requires frags != [] && start <= frags[0].len
      requires at < slots.Length == |before| && |w0| + |TsoData(frags, start, insertTag)| < slots.Length
      requires index == Wrap(at + |w0|, slots.Length)
      requires slots[..] == WriteAll(before, at, w0)
      modifies slots
      ensures slots[..] == WriteAll(before, at, w0 + TsoData(frags, start, insertTag))
      ensures next == Wrap(at + |w0 + TsoData(frags, start, insertTag)|, slots.Length)
    {
      hide WriteAll;
      hide Pieces;
      ghost var all := w0 + TsoData(frags, start, insertTag);
      ghost var w := w0;
      next := index;
      var nextFragmentStart: nat := start;
      assert frags[0..] == frags;
      for i := 0 to |frags|
        invariant i < |frags| ==> nextFragmentStart <= frags[i].len
        invariant w + TsoData(frags[i..], nextFragmentStart, insertTag) == all
        invariant slots[..] == WriteAll(before, at, w) && next == Wrap(at + |w|, slots.Length)
      {
        ghost var pieces := Pieces(frags[i], nextFragmentStart, insertTag, i == |frags| - 1);
        ghost var rest := TsoData(frags[i + 1..], 0, insertTag);
        assert frags[i..][1..] == frags[i + 1..];
        assert w + (pieces + rest) == w + pieces + rest;
        next := WriteFragment(before, at, w, next, frags[i], nextFragmentStart, insertTag, i == |frags| - 1);
        w := w + pieces;
        nextFragmentStart := 0;
      }
      assert w + [] == w;
    }

    /** Header descriptor and payload pieces of an offload packet. */
    method WriteTso(ghost before: seq<Slot>, ghost at: nat, ghost w0: seq<Desc>, index: nat, p: Packet, insertTag: bool,
                    packetLength: nat) returns (next: nat)
      requires Sendable(p) && p.mss != 0 && packetLength == Sum(p.frags)
      requires at < slots.Length == |before| && |w0| + |BodyDescs(p, insertTag)| < slots.Length
      requires index == Wrap(at + |w0|, slots.Length)
      requires slots[..] == WriteAll(before, at, w0)
      modifies slots
      ensures slots[..] == WriteAll(before, at, w0 + BodyDescs(p, insertTag))
      ensures next == Wrap(at + |w0 + BodyDescs(p, insertTag)|, slots.Length)
    {
      hide WriteAll;
      hide TsoData;
      var headerLength: nat := p.HeaderLength();
      SumFirst(p.frags);
      var tso := Tso(p.frags[0].addr, headerLength, insertTag, packetLength - headerLength, p.l4Len / 4);
      assert w0 + ([tso] + TsoData(p.frags, headerLength, insertTag)) == w0 + [tso] + TsoData(p.frags, headerLength, insertTag);
      next := Put(before, at, w0, index, tso);
      next := WriteTsoData(before, at, w0 + [tso], next, p.frags, headerLength, insertTag);
    }

    /** One descriptor per fragment of an ordinary packet. */
    method WritePlain(ghost before: seq<Slot>, ghost at: nat, ghost w0: seq<Desc>, index: nat, p: Packet, insertTag: bool)
      returns (next: nat)
      requires Sendable(p) && p.mss == 0
      requires at < slots.Length == |before| && |w0| + |BodyDescs(p, insertTag)| < slots.Length
      requires index == Wrap(at + |w0|, slots.Length)
      requires slots[..] == WriteAll(before, at, w0)
      modifies slots
      ensures slots[..] == WriteAll(before, at, w0 + BodyDescs(p, insertTag))
      ensures next == Wrap(at + |w0 + BodyDescs(p, insertTag)|, slots.Length)
    {
      hide WriteAll;
      hide Sum;
      var checksum := if p.checksum4 then IncludingPseudo else if p.checksum3 then HeaderOnly else NoChecksum;
      var frameLength, unused := Measure(p);
      ghost var body := BodyDescs(p, insertTag);
      next := index;
      assert w0 + body[..0] == w0;
      for i := 0 to |p.frags|
        invariant slots[..] == WriteAll(before, at, w0 + body[..i]) && next == Wrap(at + |w0 + body[..i]|, slots.Length)
      {
        var last := i == |p.frags| - 1;
        var d := Data(p.frags[i].addr, p.frags[i].len, insertTag, last, frameLength, checksum, last, i == 0);
        assert d == body[i] && body[..i + 1] == body[..i] + [d];
        assert w0 + body[..i] + [d] == w0 + body[..i + 1];
        next := Put(before, at, w0 + body[..i], next, d);
      }
      assert body[..|p.frags|] == body;
    }

    /** Everything written for one packet, when there is room for it; otherwise nothing. */
    method WritePacket(index: nat, p: Packet) returns (ok: bool, next: nat)
      requires Bounds() && Sendable(p) && index < slots.Length
      modifies slots, this`lastMss, this`lastVlanTag
      ensures ok <==> Needed(p, vlanId, old(Cache(lastMss, lastVlanTag))) <= EmptyRemaining(descBegin, index, slots.Length)
      ensures !ok ==> next == index && slots[..] == old(slots[..]) && lastMss == old(lastMss) && lastVlanTag == old(lastVlanTag)
      ensures ok ==> var ds := PacketDescs(p, vlanId, old(Cache(lastMss, lastVlanTag)));
        && |ds| < slots.Length
        && slots[..] == WriteAll(old(slots[..]), index, ds) && next == Wrap(index + |ds|, slots.Length)
        && Cache(lastMss, lastVlanTag) == NextCache(p, vlanId, old(Cache(lastMss, lastVlanTag)))
      ensures PriorityOf(p) < 8 && VlanOf(p, vlanId) < 0x1000 ==>
        forall d <- PacketDescs(p, vlanId, old(Cache(lastMss, lastVlanTag))) :: d.Context? ==>
          TagReads(d.tag, PriorityOf(p), VlanOf(p, vlanId))
    {
      hide PriorityOf;
      hide VlanOf;
      hide TagReads;
      if PriorityOf(p) < 8 && VlanOf(p, vlanId) < 0x1000 { ContextSays(p, vlanId, Cache(lastMss, lastVlanTag)); }
      hide BodyDescs;
      hide VlanTag;
      hide Sendable;
      ghost var before := slots[..];
      ghost var c := Cache(lastMss, lastVlanTag);
      PacketShape(p, vlanId, c);
      var vlanTag := VlanTag(p, vlanId);
      var contextTagNeeded := vlanTag != 0 && vlanTag != lastVlanTag;
      var remaining := EmptyRemaining(descBegin, index, slots.Length);
      next := index;
      if p.mss != 0 {
        var packetLength, userDescriptors := Measure(p);
        var contextNeeded := contextTagNeeded || p.mss != lastMss;
        if userDescriptors + (if contextNeeded then 1 else 0) + 1 > remaining {
          return false, index;
        }
        ok := true;
        if contextNeeded {
          next := WriteContext(index, Context(p.mss, true, vlanTag, contextTagNeeded));
          lastMss := p.mss;
          if contextTagNeeded { lastVlanTag := vlanTag; }
        }
        next := WriteTso(before, index, ContextDescs(p, vlanId, c), next, p, vlanTag != 0, packetLength);
      } else {
        if |p.frags| + (if contextTagNeeded then 1 else 0) > remaining {
          return false, index;
        }
        ok := true;
        if contextTagNeeded {
          next := WriteContext(index, Context(0, false, vlanTag, true));
          lastVlanTag := vlanTag;
        }
        next := WritePlain(before, index, ContextDescs(p, vlanId, c), next, p, vlanTag != 0);
      }
    }

    method WriteContext(index: nat, ctx: Desc) returns (next: nat)
      requires index < slots.Length && slots.Length >= 64
      modifies slots
      ensures slots[..] == WriteAll(old(slots[..]), index, [ctx]) && next == Wrap(index + 1, slots.Length)
    {
      next := Put(slots[..], index, [], index, ctx);
      assert [] + [ctx] == [ctx];
    }
  
    /** The packet window up to `to` is the one up to NextIndex and the scanned packets. */
    lemma Joined(to: nat)
      requires Bounds() && to < packets.Length
      requires Count(pktNext, to, packets.Length) + Count(to, pktEnd, packets.Length) == Count(pktNext, pktEnd, packets.Length)
      ensures Live(Between(pktBegin, to)) == Live(Between(pktBegin, pktNext)) + Live(Between(pktNext, to))
      ensures Count(pktBegin, to, packets.Length) <= Count(pktBegin, pktEnd, packets.Length)
    {
      hide Live;
      var k, m := Count(pktBegin, pktNext, packets.Length), Count(pktNext, to, packets.Length);
      CountIs(pktBegin, k + m, packets.Length);
      SliceTake(packets[..], pktBegin, k, k + m);
      SliceDrop(packets[..], pktBegin, k, k + m);
      assert Between(pktBegin, to) == Between(pktBegin, pktNext) + Between(pktNext, to);
      LiveConcat(Between(pktBegin, pktNext), Between(pktNext, to));
    }

    /** The loop state of the fill: `n` slots stand from descBegin on, `index` is the next free one, and
        the packets up to `pkt` are queued. */
    ghost predicate Filling(before: seq<Packet>, n: nat, index: nat, pkt: nat)
      reads this, slots, packets
    {
      && Bounds() && AllSendable(queued)
      && n < slots.Length && index == Wrap(descBegin + n, slots.Length)
      && Window(slots[..], descBegin, n, TheStream(), reclaimed)
      && Position(queued, vlanId, returned, reclaimed)
      && Cache(lastMss, lastVlanTag) == FinalCache(queued, vlanId, START)
      && pkt < packets.Length
      && Count(pktNext, pkt, packets.Length) + Count(pkt, pktEnd, packets.Length) == Count(pktNext, pktEnd, packets.Length)
      && queued == before + Live(Between(pktNext, pkt))
    }

    /** One more packet of the ring has been scanned. */
    lemma Scanned(pkt: nat)
      requires Bounds() && pkt < packets.Length && pkt != pktEnd
      requires Count(pktNext, pkt, packets.Length) + Count(pkt, pktEnd, packets.Length) == Count(pktNext, pktEnd, packets.Length)
      ensures var m := Next(pkt, packets.Length);
        && Count(pktNext, m, packets.Length) == Count(pktNext, pkt, packets.Length) + 1
        && Count(m, pktEnd, packets.Length) == Count(pkt, pktEnd, packets.Length) - 1
        && Live(Between(pktNext, m)) == Live(Between(pktNext, pkt)) + (if packets[pkt].ignore then [] else [packets[pkt].p])
    {
      hide Live;
      var m, k := Next(pkt, packets.Length), Count(pktNext, pkt, packets.Length);
      CountIs(pktNext, k + 1, packets.Length);
      SliceTake(packets[..], pktNext, k, k + 1);
      var b := Between(pktNext, m);
      assert b[k] == packets[..][Wrap(pktNext + k, packets.Length)] == packets[pkt];
      assert b == Between(pktNext, pkt) + [packets[pkt]];
      LiveSnoc(Between(pktNext, pkt), packets[pkt]);
    }

    lemma LiveBetween(pkt: nat)
      requires Bounds() && pkt < packets.Length && pkt != pktEnd
      requires LiveSendable(Between(pktBegin, pktEnd)) && !packets[pkt].ignore
      requires Count(pktNext, pkt, packets.Length) + Count(pkt, pktEnd, packets.Length) == Count(pktNext, pktEnd, packets.Length)
      ensures Sendable(packets[pkt].p) && HasPayload(packets[pkt].p)
    {
      var n := Count(pktBegin, pktNext, packets.Length) + Count(pktNext, pkt, packets.Length);
      var b := Between(pktBegin, pktEnd);
      assert n < Count(pktBegin, pktEnd, packets.Length) && Wrap(pktBegin + n, packets.Length) == pkt;
      assert b[n] == packets[..][Wrap(pktBegin + n, packets.Length)];
      assert b[n] in b;
    }

    /** Writes descriptors for whole packets while they fit. */
    method Fill() returns (descIndex: nat, pktIndex: nat, ghost n: nat)
      requires Valid()
      modifies slots, this`lastMss, this`lastVlanTag, this`queued
      ensures Filling(old(queued), n, descIndex, pktIndex)
      ensures Outstanding() <= n && (n == Outstanding() <==> queued == old(queued))
      ensures pktIndex == pktEnd || EmptyRemaining(descBegin, descIndex, slots.Length) == 0
        || (!packets[pktIndex].ignore &&
            Needed(packets[pktIndex].p, vlanId, Cache(lastMss, lastVlanTag)) > EmptyRemaining(descBegin, descIndex, slots.Length))
      ensures n == 0 ==> pktIndex == pktEnd
    {
      hide Stream;
      hide FinalCache;
      hide Live;
      hide Position;
      hide Window;
      hide PacketDescs;
      n := Outstanding();
      pktIndex, descIndex := pktNext, descEnd;
      assert Between(pktNext, pktNext) == [];
      NoneLive();
      while EmptyRemaining(descBegin, descIndex, slots.Length) != 0
        invariant Filling(old(queued), n, descIndex, pktIndex) && LiveSendable(Between(pktBegin, pktEnd))
        invariant Outstanding() <= n && (n == Outstanding() <==> queued == old(queued))
        decreases Count(pktIndex, pktEnd, packets.Length)
      {
        if pktIndex == pktEnd {
          break;
        }
        var pkt := packets[pktIndex];
        Scanned(pktIndex);
        if !pkt.ignore {
          LiveBetween(pktIndex);
          var ok;
          ok, descIndex, n := QueuePacket(old(queued), n, descIndex, pktIndex);
          if !ok {
            break;
          }
        }
        pktIndex := Next(pktIndex, packets.Length);
      }
      CountIs(descBegin, n, slots.Length);
    }

    /** Hands one packet to the device, if there is room for all of it. */
    method QueuePacket(ghost before: seq<Packet>, ghost n: nat, index: nat, pktIndex: nat)
      returns (ok: bool, next: nat, ghost m: nat)
      requires Filling(before, n, index, pktIndex) && pktIndex != pktEnd && !packets[pktIndex].ignore
      requires Sendable(packets[pktIndex].p) && HasPayload(packets[pktIndex].p)
      modifies slots, this`lastMss, this`lastVlanTag, this`queued
      ensures Needed(packets[pktIndex].p, vlanId, old(Cache(lastMss, lastVlanTag))) <= EmptyRemaining(descBegin, index, slots.Length)
        <==> ok
      ensures !ok ==> Filling(before, n, index, pktIndex) && m == n && next == index
      ensures !ok ==> queued == old(queued) && lastMss == old(lastMss) && lastVlanTag == old(lastVlanTag)
      ensures ok ==> Filling(before, m, next, Next(pktIndex, packets.Length)) && m > n
      ensures ok ==> queued == old(queued) + [packets[pktIndex].p]
    {
      hide Stream;
      hide FinalCache;
      hide Live;
      hide Position;
      hide Window;
      hide PacketDescs;
      hide Needed;
      hide Sendable;
      hide NextCache;
      CountIs(descBegin, n, slots.Length);
      var p := packets[pktIndex].p;
      ghost var ds := PacketDescs(p, vlanId, Cache(lastMss, lastVlanTag));
      ghost var oldSlots, oldStream := slots[..], TheStream();
      PacketShape(p, vlanId, Cache(lastMss, lastVlanTag));
      m := n;
      ok, next := WritePacket(index, p);
      if ok {
        Scanned(pktIndex);
        PositionExtends(queued, vlanId, p, returned, reclaimed);
        WindowExtends(oldSlots, descBegin, n, oldStream, reclaimed, ds);
        queued := queued + [p];
        m := n + |ds|;
      }
    }

    /** SetDescEnd and the new NextIndex, only when something was written. */
    method Publish(ghost before: seq<Packet>, ghost n: nat, descIndex: nat, pktIndex: nat)
      requires Filling(before, n, descIndex, pktIndex) && Count(pktBegin, pktNext, packets.Length) <= Count(pktBegin, pktEnd, packets.Length)
      requires LiveSendable(Between(pktBegin, pktEnd))
      requires returned <= |before| && Live(Between(pktBegin, pktNext)) == before[returned..]
      requires Outstanding() <= n && (n == Outstanding() <==> queued == before)
      modifies this`descEnd, this`pktNext
      ensures Valid() && Outstanding() == n && descEnd == descIndex
      ensures pktNext == (if descEnd == old(descEnd) then old(pktNext) else pktIndex)
      ensures descEnd == old(descEnd) <==> queued == before
    {
      hide Stream;
      hide FinalCache;
      hide Live;
      hide LiveSendable;
      hide Position;
      hide Window;
      hide AllSendable;
      CountIs(descBegin, n, slots.Length);
      CountIs(descBegin, Outstanding(), slots.Length);
      Joined(pktIndex);
      if descIndex != descEnd {
        descEnd := descIndex;
        pktNext := pktIndex;
      }
    }

    /** Second half of TxQueueAdvance. It stops only at the end of the packets or in front of a packet
        that has no room. The packets scanned become the device's only if a descriptor was written: a
        run of ignored packets alone is not passed. An empty ring takes every packet. */
    method FillMore() returns (ghost stop: nat)
      requires Valid()
      modifies slots, this`lastMss, this`lastVlanTag, this`queued, this`descEnd, this`pktNext
      ensures Valid()
      ensures stop < packets.Length && queued == old(queued) + Live(Between(old(pktNext), stop))
      ensures pktNext == (if descEnd == old(descEnd) then old(pktNext) else stop)
      ensures descEnd == old(descEnd) <==> queued == old(queued)
      ensures stop == pktEnd || EmptyRemaining(descBegin, descEnd, slots.Length) == 0
        || (!packets[stop].ignore &&
            Needed(packets[stop].p, vlanId, Cache(lastMss, lastVlanTag)) > EmptyRemaining(descBegin, descEnd, slots.Length))
      ensures Outstanding() == 0 ==> stop == pktEnd && Live(Between(old(pktNext), pktEnd)) == []
    {
      assert returned <= |queued|;
      hide Stream;
      hide FinalCache;
      hide Live;
      hide LiveSendable;
      hide Position;
      hide Window;
      hide Needed;
      hide AllSendable;
      hide EmptyRemaining;
      hide Between;
      var descIndex, pktIndex;
      ghost var n;
      descIndex, pktIndex, n := Fill();
      stop := pktIndex;
      Publish(old(queued), n, descIndex, pktIndex);
    }

    lemma NoneLive()
      ensures Live([]) == []
    {
    }

    /** TxQueueAdvance. Over the whole life of the queue, everything handed to the device is what was
        returned and what is still unfinished, in this order. */
    method Advance() returns (ghost stop: nat)
      requires Valid()
      modifies this, slots
      ensures Valid()
      ensures old(queued) <= queued && old(returned) <= returned
      ensures queued == queued[..returned] + Live(Between(pktBegin, pktNext))
      ensures stop < packets.Length && queued == old(queued) + Live(Between(old(pktNext), stop))
      ensures reclaimed == old(reclaimed) + old(HandedBack(Region()))
      ensures if pktBegin == old(pktNext) then fragBegin == old(FragmentsEnd(Between(pktBegin, pktNext), fragBegin, fragRing))
              else !packets[pktBegin].ignore && fragBegin == packets[pktBegin].fragIndex
      ensures Outstanding() == 0 ==> Live(Between(old(pktNext), pktEnd)) == []
    {
      hide Stream;
      hide Live;
      hide HandedBack;
      ReturnTransmitted();
      stop := FillMore();
    }
  }
}
