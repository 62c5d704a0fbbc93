/** The RX queue of dwc_eqos: fragments are posted to the descriptor ring, the DMA engine stores frames
    in them, and RxQueueAdvance hands them up as packets, in place, while it posts more. */
module RxQueue {
  import opened Ring

  // ---- descriptors, packets, fragments ----

  datatype PayloadType = Unknown | Udp | Tcp | Icmp

  /** What the engine writes back over a descriptor. */
  datatype WriteBack = WriteBack(error: bool, context: bool, first: bool, last: bool, packetLength: nat,
                                 rdes0Valid: bool, outerVlanTag: nat, ipv4: bool, ipv6: bool,
                                 headerError: bool, payloadError: bool, payload: PayloadType)

  predicate Good(w: WriteBack) { !w.error && !w.context && w.first && w.last }

  /** The assertion on written-back descriptors: a good frame has its four CRC bytes. */
  predicate Sane(w: WriteBack) { (Good(w) ==> w.packetLength >= 4) && w.outerVlanTag < 0x1_0000 }

  /** A slot of the descriptor ring. `at` is the buffer it was posted with, where the engine stores the
      frame; a written-back descriptor no longer holds it, and the driver does not read it there. */
  datatype Slot = Read(at: nat) | Written(at: nat, w: WriteBack)

  datatype Layer3 = NoLayer3 | Ipv4 | Ipv6
  datatype Layer4 = NoLayer4 | UnknownLayer4 | UdpLayer4 | TcpLayer4
  datatype Evaluation = NotEvaluated | Evaluated(layer3Valid: bool, layer4Valid: bool)
  datatype VlanTag = NoTag | VlanTag(priority: nat, id: nat)

  datatype Packet = Packet(fragIndex: nat, fragCount: nat, ignore: bool, ethernet: bool, layer3: Layer3, layer4: Layer4,
                           checksum: Evaluation, tag: VlanTag)

  datatype Fragment = Fragment(address: nat, offset: nat, validLength: nat)

  /** What a returned packet and its fragment must say about the frame reported by `w` and stored at `at`. */
  datatype Receipt = Receipt(at: nat, w: WriteBack, fragIndex: nat, packet: Packet, frag: Fragment)

  predicate Faithful(r: Receipt) {
    && r.frag.address == r.at && r.frag.offset == 0
    && r.packet.fragIndex == r.fragIndex && r.packet.fragCount == 1
    && (r.packet.ignore <==> !Good(r.w))
    && r.frag.validLength == (if Good(r.w) then r.w.packetLength - 4 else 0)
    && (r.packet.ethernet <==> Good(r.w) && (r.w.ipv4 || r.w.ipv6))
    && (r.packet.layer3 == NoLayer3 <==> !r.packet.ethernet)
    && (r.packet.layer3 == Ipv4 <==> r.packet.ethernet && r.w.ipv4)
    && (r.packet.layer4 == NoLayer4 <==> !r.packet.ethernet)
    && (r.packet.layer4 == UdpLayer4 <==> r.packet.ethernet && r.w.payload == Udp)
    && (r.packet.layer4 == TcpLayer4 <==> r.packet.ethernet && r.w.payload == Tcp)
    && r.packet.checksum == (if r.packet.ethernet then Evaluated(!r.w.headerError, !r.w.payloadError) else NotEvaluated)
    && r.packet.tag == (if Good(r.w) && r.w.rdes0Valid && r.w.outerVlanTag != 0
                        then VlanTag(r.w.outerVlanTag / 0x2000, r.w.outerVlanTag % 0x1000) else NoTag)
  }

  /** A packet as the framework adds it to the ring. */
  predicate Blank(p: Packet) { !p.ignore && p.checksum == NotEvaluated && p.tag == NoTag }

  predicate SaneSlots(slots: seq<Slot>) { forall s <- slots :: s.Written? ==> Sane(s.w) }

  lemma SanePost(slots: seq<Slot>, i: nat, a: nat)
    requires i < |slots| && SaneSlots(slots)
    ensures SaneSlots(slots[i := Read(a)])
  {
  }

  lemma SaneAt(slots: seq<Slot>, i: nat)
    requires SaneSlots(slots) && i < |slots| && slots[i].Written?
    ensures Sane(slots[i].w)
  {
  }

  predicate AllBlank(ps: seq<Packet>) { forall p <- ps :: Blank(p) }

  function Buffers(slots: seq<Slot>): (r: seq<nat>)
    ensures |r| == |slots|
  {
    seq(|slots|, i requires 0 <= i < |slots| => slots[i].at)
  }

  function Addresses(frags: seq<Fragment>): (r: seq<nat>)
    ensures |r| == |frags|
  {
    seq(|frags|, i requires 0 <= i < |frags| => frags[i].address)
  }

  // ---- ring arithmetic ----

  /** A region after `k` elements were taken from its front. */
  lemma Shift(begin: nat, k: nat, end: nat, n: nat)
    requires begin < n && end < n && k <= Count(begin, end, n)
    ensures Count(Wrap(begin + k, n), end, n) == Count(begin, end, n) - k
  {
  }

  /** A region after `k` elements were added at its end. */
  lemma Extend(begin: nat, end: nat, k: nat, n: nat)
    requires begin < n && end < n && Count(begin, end, n) + k < n
    ensures Count(begin, Wrap(end + k, n), n) == Count(begin, end, n) + k
  {
  }

  lemma Start(begin: nat, n: nat)
    requires begin < n
    ensures Wrap(begin, n) == begin
  {
  }

  lemma Nothing(i: nat, n: nat)
    requires i < n
    ensures Count(i, i, n) == 0
  {
  }

  lemma Inside(begin: nat, k: nat, end: nat, n: nat)
    requires begin < n && end < n && k < Count(begin, end, n)
    ensures Wrap(begin + k, n) != end
  {
  }

  lemma Behind(begin: nat, end: nat, k: nat, n: nat)
    requires begin < n && end < n && Count(begin, end, n) + k < n
    ensures Wrap(begin + (Count(begin, end, n) + k), n) == Wrap(end + k, n)
  {
  }

  lemma NextWraps(begin: nat, k: nat, n: nat)
    requires begin < n && k < n
    ensures Next(Wrap(begin + k, n), n) == Wrap(begin + (k + 1), n)
  {
  }

  /** Room after the region that starts at `begin` and ends at `end`, up to the hole before `begin`. */
  lemma RoomIs(begin: nat, end: nat, n: nat)
    requires begin < n && end < n
    ensures Count(end, Wrap(begin + n - 1, n), n) == n - 1 - Count(begin, end, n)
  {
  }

  /** The guard of the tail write: of the `o` outstanding descriptors the engine has gone past `r`, and `q`
      more were filled. The end index meets the engine's index if and only if
      nothing was filled and the engine has nothing left, so no refill is ever forgotten. */
  lemma GuardIsExact(begin: nat, r: nat, o: nat, q: nat, n: nat)
    requires begin < n && r <= o && o + q < n
    ensures Wrap(Wrap(begin + o, n) + q, n) == Wrap(begin + r, n) <==> q == 0 && r == o
  {
  }

  lemma SliceZero<T>(s: seq<T>, start: nat)
    requires start < |s|
    ensures Slice(s, start, 0) == []
  {
  }

  /** A slice is not touched by a write behind it. */
  lemma SliceSkips<T>(s: seq<T>, start: nat, len: nat, k: nat, x: T)
    requires start < |s| && len <= k < |s|
    ensures Slice(s[Wrap(start + k, |s|) := x], start, len) == Slice(s, start, len)
  {
    var t := s[Wrap(start + k, |s|) := x];
    forall i | 0 <= i < len
      ensures Slice(t, start, len)[i] == Slice(s, start, len)[i]
    {
      assert Wrap(start + i, |s|) != Wrap(start + k, |s|);
    }
  }

  lemma SliceHead<T>(s: seq<T>, start: nat, len: nat)
    requires start < |s| && 0 < len <= |s|
    ensures Slice(s, start, len)[0] == s[start]
  {
    assert Wrap(start + 0, |s|) == start;
  }

  /** Receipt number j is about the j-th fragment posted. */
  predicate AllFaithful(receipts: seq<Receipt>, posted: seq<nat>) {
    && |receipts| <= |posted|
    && forall j :: 0 <= j < |receipts| ==> Faithful(receipts[j]) && receipts[j].at == posted[j]
  }

  lemma FaithfulSnoc(receipts: seq<Receipt>, posted: seq<nat>, r: Receipt)
    requires AllFaithful(receipts, posted) && |receipts| < |posted|
    requires Faithful(r) && r.at == posted[|receipts|]
    ensures AllFaithful(receipts + [r], posted)
  {
  }

  lemma FewerReceipts(receipts: seq<Receipt>, posted: seq<nat>)
    requires AllFaithful(receipts, posted)
    ensures |receipts| <= |posted|
  {
  }

  lemma FaithfulGrows(receipts: seq<Receipt>, posted: seq<nat>, a: nat)
    requires AllFaithful(receipts, posted)
    ensures AllFaithful(receipts, posted + [a])
  {
  }

  function PacketsOf(receipts: seq<Receipt>): (r: seq<Packet>)
    ensures |r| == |receipts|
  {
    seq(|receipts|, i requires 0 <= i < |receipts| => receipts[i].packet)
  }

  function FragsOf(receipts: seq<Receipt>): (r: seq<Fragment>)
    ensures |r| == |receipts|
  {
    seq(|receipts|, i requires 0 <= i < |receipts| => receipts[i].frag)
  }

  /** The written-back descriptors that the receipts are about. */
  function SlotsOf(receipts: seq<Receipt>): (r: seq<Slot>)
    ensures |r| == |receipts|
  {
    seq(|receipts|, i requires 0 <= i < |receipts| => Written(receipts[i].at, receipts[i].w))
  }

  lemma OfSnoc(rs: seq<Receipt>, r: Receipt)
    ensures SlotsOf(rs + [r]) == SlotsOf(rs) + [Written(r.at, r.w)]
    ensures PacketsOf(rs + [r]) == PacketsOf(rs) + [r.packet] && FragsOf(rs + [r]) == FragsOf(rs) + [r.frag]
  {
  }

  /** A walk over a ring from `begin` on, `done` turns old: it wrote `out`, and the rest of the ring, which
      held `was` from `begin` on, is as it was. */
  predicate Walked<T(==)>(s: seq<T>, begin: nat, done: nat, out: seq<T>, was: seq<T>) {
    && begin < |s| && done <= |s| == |was|
    && Slice(s, begin, done) == out && Slice(s, Wrap(begin + done, |s|), |s| - done) == was[done..]
  }

  lemma WalkStarts<T>(s: seq<T>, begin: nat)
    requires begin < |s|
    ensures Walked(s, begin, 0, [], Slice(s, begin, |s|))
  {
  }

  lemma WalkedOut<T>(s: seq<T>, begin: nat, done: nat, out: seq<T>, was: seq<T>)
    requires Walked(s, begin, done, out, was)
    ensures Slice(s, begin, done) == out
  {
  }

  lemma WalkGoesOn<T>(s: seq<T>, begin: nat, done: nat, out: seq<T>, was: seq<T>, x: T)
    requires Walked(s, begin, done, out, was) && done < |s|
    ensures Walked(s[Wrap(begin + done, |s|) := x], begin, done + 1, out + [x], was)
    ensures s[Wrap(begin + done, |s|)] == was[done]
  {
    var i := Wrap(begin + done, |s|);
    SliceAppend(s, begin, done, x);
    SliceHead(s, i, |s| - done);
    if |s| > 1 { SliceDrop(s, i, 1, |s| - done); }
    assert Next(i, |s|) == Wrap(begin + (done + 1), |s|);
    var a, b := Slice(s[i := x], Next(i, |s|), |s| - done - 1), Slice(s, Next(i, |s|), |s| - done - 1);
    forall j | 0 <= j < |s| - done - 1
      ensures a[j] == b[j]
    {
      assert Wrap(Next(i, |s|) + j, |s|) != i;
    }
  }

  lemma BlankRest(ps: seq<Packet>, begin: nat, done: nat, out: seq<Packet>, was: seq<Packet>, waiting: nat)
    requires Walked(ps, begin, done, out, was) && done <= waiting <= |was| && AllBlank(was[..waiting])
    ensures AllBlank(Slice(ps, Wrap(begin + done, |ps|), waiting - done))
  {
    var i := Wrap(begin + done, |ps|);
    SliceTake(ps, i, waiting - done, |ps| - done);
    assert Slice(ps, i, waiting - done) == was[done..][..waiting - done] == was[..waiting][done..];
  }

  /** Where the receive loop starts in the three rings. */
  datatype At = At(desc: nat, pkt: nat, frag: nat)

  /** After `done` turns the loop has written the packets and fragments of `rs` for the slots of `rs`. */
  predicate Taken(slots: seq<Slot>, ps: seq<Packet>, fs: seq<Fragment>, at: At, done: nat, rs: seq<Receipt>,
                  wasPackets: seq<Packet>, wasFrags: seq<Fragment>)
  {
    && at.desc < |slots| && done <= |slots| && Slice(slots, at.desc, done) == SlotsOf(rs)
    && Walked(ps, at.pkt, done, PacketsOf(rs), wasPackets) && Walked(fs, at.frag, done, FragsOf(rs), wasFrags)
  }

  lemma TakenNothing(slots: seq<Slot>, ps: seq<Packet>, fs: seq<Fragment>, at: At)
    requires at.desc < |slots| && at.pkt < |ps| && at.frag < |fs|
    ensures Taken(slots, ps, fs, at, 0, [], Slice(ps, at.pkt, |ps|), Slice(fs, at.frag, |fs|))
  {
    WalkStarts(ps, at.pkt);
    WalkStarts(fs, at.frag);
  }

  /** One turn of the receive loop. */
  lemma TakeTurn(slots: seq<Slot>, ps: seq<Packet>, fs: seq<Fragment>, at: At, done: nat, rs: seq<Receipt>,
                 wasPackets: seq<Packet>, wasFrags: seq<Fragment>, r: Receipt)
    requires Taken(slots, ps, fs, at, done, rs, wasPackets, wasFrags) && done < |slots| && done < |ps| && done < |fs|
    requires r.frag.address == fs[Wrap(at.frag + done, |fs|)].address
    requires slots[Wrap(at.desc + done, |slots|)] == Written(r.at, r.w)
    ensures var ps', fs' := ps[Wrap(at.pkt + done, |ps|) := r.packet], fs[Wrap(at.frag + done, |fs|) := r.frag];
      && Taken(slots, ps', fs', at, done + 1, rs + [r], wasPackets, wasFrags)
      && Addresses(fs') == Addresses(fs)
  {
    hide Walked;
    WalkGoesOn(ps, at.pkt, done, PacketsOf(rs), wasPackets, r.packet);
    WalkGoesOn(fs, at.frag, done, FragsOf(rs), wasFrags, r.frag);
    SameAddress(fs, Wrap(at.frag + done, |fs|), r.frag);
    SliceGrows(slots, at.desc, done);
    OfSnoc(rs, r);
  }

  lemma NextIsBlank(slots: seq<Slot>, ps: seq<Packet>, fs: seq<Fragment>, at: At, done: nat, rs: seq<Receipt>,
                    wasPackets: seq<Packet>, wasFrags: seq<Fragment>, waiting: nat)
    requires Taken(slots, ps, fs, at, done, rs, wasPackets, wasFrags)
    requires done < waiting <= |wasPackets| && AllBlank(wasPackets[..waiting])
    ensures Blank(ps[Wrap(at.pkt + done, |ps|)])
  {
    WalkGoesOn(ps, at.pkt, done, PacketsOf(rs), wasPackets, ps[Wrap(at.pkt + done, |ps|)]);
    assert wasPackets[done] == wasPackets[..waiting][done];
  }

  lemma ReceiptTurn(receipts: seq<Receipt>, posted: seq<nat>, r0: nat, r: Receipt)
    requires AllFaithful(receipts, posted) && r0 <= |receipts| < |posted|
    requires Faithful(r) && r.at == posted[|receipts|..][0]
    ensures AllFaithful(receipts + [r], posted) && (receipts + [r])[r0..] == receipts[r0..] + [r]
    ensures posted[|receipts|..][1..] == posted[|receipts + [r]|..]
  {
    FaithfulSnoc(receipts, posted, r);
  }

  /** What one turn of the refill loop does to the descriptor ring. */
  lemma FillTurn(slots: seq<Slot>, addresses: seq<nat>, descEnd: nat, fragNext: nat, filled: nat, news: seq<nat>,
                 wasSlots: seq<Slot>)
    requires Walked(slots, descEnd, filled, ReadsOf(news), wasSlots) && filled < |slots|
    requires fragNext < |addresses| && filled < |addresses|
    ensures var a := addresses[Wrap(fragNext + filled, |addresses|)];
      && Walked(slots[Wrap(descEnd + filled, |slots|) := Read(a)], descEnd, filled + 1, ReadsOf(news + [a]), wasSlots)
      && Slice(addresses, fragNext, filled + 1) == Slice(addresses, fragNext, filled) + [a]
  {
    hide Walked;
    var a := addresses[Wrap(fragNext + filled, |addresses|)];
    WalkGoesOn(slots, descEnd, filled, ReadsOf(news), wasSlots, Read(a));
    ReadsSnoc(news, a);
    SliceGrows(addresses, fragNext, filled);
  }

  lemma PostTurn(receipts: seq<Receipt>, posted: seq<nat>, p0: nat, a: nat)
    requires AllFaithful(receipts, posted) && p0 <= |posted|
    ensures AllFaithful(receipts, posted + [a]) && (posted + [a])[p0..] == posted[p0..] + [a]
    ensures (posted + [a])[|receipts|..] == posted[|receipts|..] + [a]
  {
    FaithfulGrows(receipts, posted, a);
  }

  /** The drain leaves the packets indicated before it alone, and all the others are ignored. */
  lemma DrainKeeps(before: seq<Packet>, after: seq<Packet>, begin: nat, done: nat, flushed: nat)
    requires begin < |before| == |after| && done + flushed <= |before| && done < |before|
    requires var all := Slice(before, Wrap(begin + done, |before|), |before|);
      Walked(after, Wrap(begin + done, |before|), flushed, Ignored(all[..flushed]), all)
    ensures Slice(after, begin, done) == Slice(before, begin, done)
    ensures forall p <- Slice(after, Wrap(begin + done, |before|), flushed) :: p.ignore
  {
    var n, b := |before|, Wrap(begin + done, |before|);
    var all := Slice(before, b, n);
    var rest := Slice(after, Wrap(b + flushed, n), n - flushed);
    var x, y := Slice(after, begin, done), Slice(before, begin, done);
    forall i | 0 <= i < done
      ensures x[i] == y[i]
    {
      var j := n - done + i;
      assert Wrap(b + j, n) == Wrap(begin + i, n) == Wrap(Wrap(b + flushed, n) + (j - flushed), n);
      assert rest[j - flushed] == all[j];
    }
  }

  function ReadsOf(addresses: seq<nat>): seq<Slot> {
    seq(|addresses|, i requires 0 <= i < |addresses| => Read(addresses[i]))
  }

  lemma ReadsSnoc(addresses: seq<nat>, a: nat)
    ensures ReadsOf(addresses + [a]) == ReadsOf(addresses) + [Read(a)]
  {
  }

  lemma SameAddress(frags: seq<Fragment>, i: nat, x: Fragment)
    requires i < |frags| && x.address == frags[i].address
    ensures Addresses(frags[i := x]) == Addresses(frags)
  {
  }

  function Ignored(ps: seq<Packet>): seq<Packet> {
    seq(|ps|, i requires 0 <= i < |ps| => ps[i].(ignore := true))
  }

  lemma BufferAt(slots: seq<Slot>, i: nat)
    requires i < |slots|
    ensures Buffers(slots)[i] == slots[i].at
  {
  }

  lemma NoneIgnored()
    ensures Ignored([]) == []
  {
  }

  lemma IgnoredSnoc(ps: seq<Packet>, p: Packet)
    ensures Ignored(ps + [p]) == Ignored(ps) + [p.(ignore := true)]
  {
  }

  lemma AddressAt(frags: seq<Fragment>, i: nat)
    requires i < |frags|
    ensures Addresses(frags)[i] == frags[i].address
  {
  }

  lemma SliceGrows<T>(s: seq<T>, start: nat, len: nat)
    requires start < |s| && len < |s|
    ensures Slice(s, start, len + 1) == Slice(s, start, len) + [s[Wrap(start + len, |s|)]]
  {
  }

  /** The region of `len` slots and the fragments from `fragIndex` on both carry the buffers `open`, in order. */
  predicate Matched(buffers: seq<nat>, descIndex: nat, addresses: seq<nat>, fragIndex: nat, open: seq<nat>)
    requires descIndex < |buffers| && fragIndex < |addresses|
  {
    && |open| < |buffers| && |open| < |addresses|
    && Slice(buffers, descIndex, |open|) == open && Slice(addresses, fragIndex, |open|) == open
  }

  lemma MatchedHead(buffers: seq<nat>, descIndex: nat, addresses: seq<nat>, fragIndex: nat, open: seq<nat>)
    requires descIndex < |buffers| && fragIndex < |addresses| && open != []
    requires Matched(buffers, descIndex, addresses, fragIndex, open)
    ensures buffers[descIndex] == addresses[fragIndex] == open[0]
    ensures Matched(buffers, Next(descIndex, |buffers|), addresses, Next(fragIndex, |addresses|), open[1..])
  {
    SliceHead(buffers, descIndex, |open|);
    SliceHead(addresses, fragIndex, |open|);
    SliceDrop(buffers, descIndex, 1, |open|);
    SliceDrop(addresses, fragIndex, 1, |open|);
  }

  lemma MatchedGrows(buffers: seq<nat>, descIndex: nat, addresses: seq<nat>, fragIndex: nat, open: seq<nat>)
    requires descIndex < |buffers| && fragIndex < |addresses|
    requires Matched(buffers, descIndex, addresses, fragIndex, open)
    requires |open| + 1 < |buffers| && |open| + 1 < |addresses|
    ensures var a := addresses[Wrap(fragIndex + |open|, |addresses|)];
      Matched(buffers[Wrap(descIndex + |open|, |buffers|) := a], descIndex, addresses, fragIndex, open + [a])
  {
    var a := addresses[Wrap(fragIndex + |open|, |addresses|)];
    SliceAppend(buffers, descIndex, |open|, a);
    SliceAppend(addresses, fragIndex, |open|, a);
    assert addresses[Wrap(fragIndex + |open|, |addresses|) := a] == addresses;
  }

  lemma BuffersUpdate(slots: seq<Slot>, i: nat, x: Slot)
    requires i < |slots|
    ensures Buffers(slots[i := x]) == Buffers(slots)[i := x.at]
  {
  }

  lemma AddressesUpdate(frags: seq<Fragment>, i: nat, x: Fragment)
    requires i < |frags|
    ensures Addresses(frags[i := x]) == Addresses(frags)[i := x.address]
  {
  }

  class Queue {
    const slots: array<Slot>         // descVirtual
    const packets: array<Packet>     // packetRing
    const frags: array<Fragment>     // fragmentRing
    var pktBegin: nat
    var pktEnd: nat
    var fragBegin: nat
    var fragNext: nat
    var fragEnd: nat
    var descBegin: nat
    var descEnd: nat
    var running: bool
    var current: nat                 // the engine's Current_App_RxDesc, as an index
    var tail: nat                    // RxDesc_Tail_Pointer, as an index

    ghost var posted: seq<nat>       // the buffers of all fragments ever posted, in order
    ghost var receipts: seq<Receipt> // what was handed up for the first of them
    ghost var given: nat             // packets the framework has added
    ghost var flushed: nat           // packets returned unused by the final drain
    ghost var drained: bool

    predicate Bounds()
      reads this
    {
      && slots.Length >= 64 && packets.Length >= 1 && frags.Length >= 1
      && descBegin < slots.Length && descEnd < slots.Length && current < slots.Length
      && pktBegin < packets.Length && pktEnd < packets.Length
      && fragBegin < frags.Length && fragNext < frags.Length && fragEnd < frags.Length
    }

    /** Descriptors posted and not yet taken back. */
    function Outstanding(): (o: nat)
      requires Bounds()
      reads this
      ensures o <= slots.Length - 1
    {
      Count(descBegin, descEnd, slots.Length)
    }

    /** Of these, the ones the engine has gone past. */
    function Received(): nat
      requires Bounds()
      reads this
    {
      Count(descBegin, current, slots.Length)
    }

    function Waiting(): nat
      requires Bounds()
      reads this
    {
      Count(pktBegin, pktEnd, packets.Length)
    }

    /** The whole rings, as the driver walks them. */
    function AllPackets(): seq<Packet>
      requires Bounds()
      reads this, packets
    {
      Slice(packets[..], pktBegin, packets.Length)
    }

    function AllFrags(): seq<Fragment>
      requires Bounds()
      reads this, frags
    {
      Slice(frags[..], fragBegin, frags.Length)
    }

    function AllSlots(): seq<Slot>
      requires Bounds()
      reads this, slots
    {
      Slice(slots[..], descEnd, slots.Length)
    }

    ghost predicate PacketsAreBlank()
      requires Bounds()
      reads this, packets
    {
      AllBlank(Slice(packets[..], pktBegin, Waiting()))
    }

    predicate WritesAreSane()
      reads slots
    {
      SaneSlots(slots[..])
    }

    /** Descriptors in [descBegin, descEnd) and fragments in [BeginIndex, NextIndex) are one-to-one. */
    ghost predicate OneToOne()
      requires Bounds() && |receipts| <= |posted|
      reads this, slots, frags
    {
      && |posted| - |receipts| == Outstanding() == Count(fragBegin, fragNext, frags.Length)
      && Matched(Buffers(slots[..]), descBegin, Addresses(frags[..]), fragBegin, posted[|receipts|..])
    }

    ghost predicate Valid()
      reads this, slots, packets, frags
    {
      && Bounds() && AllFaithful(receipts, posted) && PacketsAreBlank() && WritesAreSane()
      && Received() <= Outstanding()
      && given == |receipts| + flushed + Waiting()
      && (!drained ==> flushed == 0 && OneToOne())
      && (!drained ==> Count(fragBegin, fragNext, frags.Length) <= Count(fragBegin, fragEnd, frags.Length))
      && (drained ==> !running && Waiting() == 0 && fragBegin == fragEnd)
    }

    /** RxQueueStart, on rings the framework has just set up. */
    constructor (descCount: nat, slot: Slot, packets: array<Packet>, frags: array<Fragment>)
      requires descCount >= 64 && packets.Length >= 1 && frags.Length >= 1
      requires slot.Written? ==> Sane(slot.w)
      ensures Valid() && fresh(slots) && slots.Length == descCount && this.packets == packets && this.frags == frags
      ensures running && !drained && posted == [] && receipts == [] && given == 0
    {
      slots := new Slot[descCount](i => slot);
      this.packets, this.frags := packets, frags;
      pktBegin, pktEnd, fragBegin, fragNext, fragEnd := 0, 0, 0, 0, 0;
      descBegin, descEnd, current, tail := 0, 0, 0, 0;
      running, drained := true, false;
      posted, receipts, given, flushed := [], [], 0, 0;
    }

    /** RxQueueCancel. */
    method Cancel()
      requires Valid()
      modifies this`running
      ensures Valid() && !running
    {
      running := false;
    }

    // ---- the other parties ----

    /** The engine writes slot number k of the region back. */
    method Complete(k: nat, w: WriteBack)
      requires Valid() && k < Outstanding() && Sane(w)
      modifies slots
      ensures Valid() && var i := Wrap(descBegin + k, slots.Length);
        slots[..] == old(slots[..])[i := Written(old(slots[i].at), w)]
    {
      var i := Wrap(descBegin + k, slots.Length);
      ghost var before := slots[..];
      slots[i] := Written(slots[i].at, w);
      assert slots[..] == before[i := Written(before[i].at, w)];
      BuffersUpdate(before, i, Written(before[i].at, w));
      assert Buffers(slots[..]) == Buffers(before);
    }

    /** The engine's pointer moves on, at most to the end of the region. */
    method EngineMoves(k: nat)
      requires Valid() && Received() <= k <= Outstanding()
      modifies this`current
      ensures Valid() && Received() == k
    {
      current := Wrap(descBegin + k, slots.Length);
      CountIs(descBegin, k, slots.Length);
    }

    method GivePacket(p: Packet)
      requires Valid() && Blank(p) && !drained && Next(pktEnd, packets.Length) != pktBegin
      modifies this`pktEnd, this`given, packets
      ensures Valid() && given == old(given) + 1 && Waiting() == old(Waiting()) + 1
      ensures packets[..] == old(packets[..])[old(pktEnd) := p]
    {
      ghost var before, n := packets[..], Waiting();
      packets[pktEnd] := p;
      SliceAppend(before, pktBegin, n, p);
      pktEnd := Next(pktEnd, packets.Length);
      given := given + 1;
    }

    method GiveFragment(address: nat)
      requires Valid() && !drained && Next(fragEnd, frags.Length) != fragBegin
      modifies this`fragEnd, frags
      ensures Valid() && fragEnd == Next(old(fragEnd), frags.Length)
      ensures frags[..] == old(frags[..])[old(fragEnd) := Fragment(address, 0, 0)]
    {
      ghost var before := frags[..];
      ghost var x := Fragment(address, 0, 0);
      frags[fragEnd] := Fragment(address, 0, 0);
      AddressesUpdate(before, fragEnd, x);
      SliceSkips(Addresses(before), fragBegin, Outstanding(), Count(fragBegin, fragEnd, frags.Length), address);
      fragEnd := Next(fragEnd, frags.Length);
    }

    // ---- RxQueueAdvance: indicate received packets ----

    /** One turn of the loop over received descriptors. */
    method TakeOne(descIndex: nat, pktIndex: nat, fragIndex: nat) returns (ghost r: Receipt)
      requires descIndex < slots.Length && pktIndex < packets.Length && fragIndex < frags.Length
      requires slots[descIndex].Written? && Sane(slots[descIndex].w) && Blank(packets[pktIndex])
      requires slots[descIndex].at == frags[fragIndex].address
      modifies packets, frags
      ensures Faithful(r) && r.at == slots[descIndex].at == r.frag.address && r.w == slots[descIndex].w && r.fragIndex == fragIndex
      ensures packets[..] == old(packets[..])[pktIndex := r.packet]
      ensures frags[..] == old(frags[..])[fragIndex := r.frag]
    {
      var w := slots[descIndex].w;
      var pkt := packets[pktIndex].(fragIndex := fragIndex, fragCount := 1,
                                    ethernet := false, layer3 := NoLayer3, layer4 := NoLayer4);
      var frag := frags[fragIndex].(offset := 0);
      if w.error || w.context || !w.first || !w.last {
        pkt := pkt.(ignore := true);
        frag := frag.(validLength := 0);
      } else {
        frag := frag.(validLength := w.packetLength - 4);
        if w.rdes0Valid && w.outerVlanTag != 0 {
          pkt := pkt.(tag := VlanTag(w.outerVlanTag / 0x2000, w.outerVlanTag % 0x1000));
        }
        if w.ipv4 || w.ipv6 {
          var layer4 := match w.payload
            case Udp => UdpLayer4
            case Tcp => TcpLayer4
            case _ => UnknownLayer4;
          pkt := pkt.(ethernet := true, layer3 := if w.ipv4 then Ipv4 else Ipv6, layer4 := layer4,
                      checksum := Evaluated(!w.headerError, !w.payloadError));
        }
      }
      packets[pktIndex] := pkt;
      frags[fragIndex] := frag;
      r := Receipt(slots[descIndex].at, w, fragIndex, pkt, frag);
    }

    /** The loop over received descriptors, up to `descNext`, where the engine was seen, or to the first
        descriptor it still owns, or the last packet there is to hand up. */
    method TakeLoop(descNext: nat) returns (done: nat, descIndex: nat, pktIndex: nat, fragIndex: nat)
      requires Valid() && descNext < slots.Length
      requires Count(descBegin, descNext, slots.Length) <= Received()
      modifies this`receipts, packets, frags
      ensures done <= Count(descBegin, descNext, slots.Length) && descIndex == Wrap(descBegin + done, slots.Length)
      ensures done <= Waiting() && pktIndex == Wrap(pktBegin + done, packets.Length)
      ensures done <= Outstanding() && fragIndex == Wrap(fragBegin + done, frags.Length)
      ensures |receipts| == |old(receipts)| + done && old(receipts) <= receipts && AllFaithful(receipts, posted)
      ensures !drained ==> |posted| - |receipts| == Outstanding() - done
      ensures !drained ==> Matched(Buffers(slots[..]), descIndex, Addresses(frags[..]), fragIndex, posted[|receipts|..])
      ensures Taken(slots[..], packets[..], frags[..], At(descBegin, pktBegin, fragBegin), done,
                    receipts[|old(receipts)|..], old(AllPackets()), old(AllFrags()))
      ensures descIndex == descNext || pktIndex == pktEnd || slots[descIndex].Read?
    {
      hide Faithful;
      hide AllFaithful;
      hide Blank;
      hide Count;
      hide Wrap;
      hide Next;
      hide Slice;
      hide Taken;
      hide Walked;
      hide Matched;
      hide Buffers;
      hide Addresses;
      hide PacketsOf;
      hide FragsOf;
      hide SlotsOf;
      hide SaneSlots;
      descIndex, pktIndex, fragIndex := descBegin, pktBegin, fragBegin;
      done := 0;
      ghost var r0 := |receipts|;
      Start(descBegin, slots.Length);
      Start(pktBegin, packets.Length);
      Start(fragBegin, frags.Length);
      ghost var wasPackets, wasFrags := AllPackets(), AllFrags();
      ghost var start := At(descBegin, pktBegin, fragBegin);
      TakenNothing(slots[..], packets[..], frags[..], start);
      FewerReceipts(receipts, posted);
      SliceTake(packets[..], pktBegin, Waiting(), packets.Length);
      assert receipts[r0..] == [];
      while descIndex != descNext
        modifies this`receipts, packets, frags
        invariant done <= Count(descBegin, descNext, slots.Length) && descIndex == Wrap(descBegin + done, slots.Length)
        invariant done <= Waiting() && pktIndex == Wrap(pktBegin + done, packets.Length)
        invariant done <= Outstanding() && fragIndex == Wrap(fragBegin + done, frags.Length)
        invariant |receipts| == r0 + done <= |posted| && old(receipts) <= receipts && AllFaithful(receipts, posted)
        invariant drained ==> pktIndex == pktEnd
        invariant !drained ==> |posted| - |receipts| == Outstanding() - done
        invariant !drained ==> Matched(Buffers(slots[..]), descIndex, Addresses(frags[..]), fragIndex, posted[|receipts|..])
        invariant Taken(slots[..], packets[..], frags[..], start, done, receipts[r0..], wasPackets, wasFrags)
        decreases Received() - done
      {
        if !drained {
          Inside(fragBegin, done, fragEnd, frags.Length);
          assert fragIndex != fragEnd;
        }
        if pktIndex == pktEnd || fragIndex == fragEnd { break; }
        if slots[descIndex].Read? { break; }
        SaneAt(slots[..], descIndex);
        MatchedHead(Buffers(slots[..]), descIndex, Addresses(frags[..]), fragIndex, posted[|receipts|..]);
        BufferAt(slots[..], descIndex);
        AddressAt(frags[..], fragIndex);
        ghost var ps, fs, rs := packets[..], frags[..], receipts[r0..];
        NextIsBlank(slots[..], ps, fs, start, done, rs, wasPackets, wasFrags, Waiting());
        ghost var r := TakeOne(descIndex, pktIndex, fragIndex);
        TakeTurn(slots[..], ps, fs, start, done, rs, wasPackets, wasFrags, r);
        ReceiptTurn(receipts, posted, r0, r);
        receipts := receipts + [r];
        NextWraps(descBegin, done, slots.Length);
        NextWraps(pktBegin, done, packets.Length);
        NextWraps(fragBegin, done, frags.Length);
        descIndex := Next(descIndex, slots.Length);
        pktIndex := Next(pktIndex, packets.Length);
        fragIndex := Next(fragIndex, frags.Length);
        done := done + 1;
      }
    }

    /** Hands up the packets whose descriptors have come back. */
    method TakeReceived(descNext: nat) returns (done: nat)
      requires Valid() && descNext < slots.Length
      requires Count(descBegin, descNext, slots.Length) <= Received()
      modifies this`descBegin, this`pktBegin, this`fragBegin, this`receipts, packets, frags
      ensures Valid() && done <= old(Count(descBegin, descNext, slots.Length)) && Waiting() == old(Waiting()) - done
      ensures done < packets.Length && done < frags.Length
      ensures descBegin == Wrap(old(descBegin) + done, slots.Length)
      ensures pktBegin == Wrap(old(pktBegin) + done, packets.Length)
      ensures fragBegin == Wrap(old(fragBegin) + done, frags.Length)
      ensures descBegin == descNext || pktBegin == pktEnd || slots[descBegin].Read?
      ensures Outstanding() == old(Outstanding()) - done
      ensures Count(descBegin, descNext, slots.Length) == old(Count(descBegin, descNext, slots.Length)) - done
      ensures |receipts| == |old(receipts)| + done && old(receipts) <= receipts
      ensures Slice(slots[..], old(descBegin), done) == SlotsOf(receipts[|old(receipts)|..])
      ensures Walked(packets[..], old(pktBegin), done, PacketsOf(receipts[|old(receipts)|..]), old(AllPackets()))
      ensures Walked(frags[..], old(fragBegin), done, FragsOf(receipts[|old(receipts)|..]), old(AllFrags()))
    {
      hide Faithful;
      hide AllFaithful;
      hide Blank;
      hide Count;
      hide Wrap;
      hide Next;
      hide Slice;
      hide Walked;
      hide Matched;
      hide Buffers;
      hide Addresses;
      hide PacketsOf;
      hide FragsOf;
      hide SlotsOf;
      ghost var r0, wasPackets := |receipts|, AllPackets();
      SliceTake(packets[..], pktBegin, Waiting(), packets.Length);
      var descIndex, pktIndex, fragIndex;
      done, descIndex, pktIndex, fragIndex := TakeLoop(descNext);
      BlankRest(packets[..], pktBegin, done, PacketsOf(receipts[r0..]), wasPackets, Waiting());
      Start(fragBegin, frags.Length);
      Shift(descBegin, done, descEnd, slots.Length);
      Shift(descBegin, done, descNext, slots.Length);
      Shift(descBegin, done, current, slots.Length);
      Shift(pktBegin, done, pktEnd, packets.Length);
      Shift(fragBegin, done, fragNext, frags.Length);
      Shift(fragBegin, done, fragEnd, frags.Length);
      descBegin, pktBegin, fragBegin := descIndex, pktIndex, fragIndex;
    }

    // ---- RxQueueAdvance: prepare more descriptors ----

    /** The loop that posts fragments until the ring is full or the fragments are used up. */
    method FillLoop() returns (filled: nat, descIndex: nat, fragIndex: nat)
      requires Valid() && !drained
      modifies this`posted, slots
      ensures WritesAreSane() && Outstanding() + filled <= slots.Length - 1
      ensures descIndex == Wrap(descEnd + filled, slots.Length)
      ensures filled <= Count(fragNext, fragEnd, frags.Length) && fragIndex == Wrap(fragNext + filled, frags.Length)
      ensures |posted| == |receipts| + Outstanding() + filled && AllFaithful(receipts, posted)
      ensures Matched(Buffers(slots[..]), descBegin, Addresses(frags[..]), fragBegin, posted[|receipts|..])
      ensures posted == old(posted) + Slice(Addresses(frags[..]), fragNext, filled)
      ensures Walked(slots[..], descEnd, filled, ReadsOf(posted[|old(posted)|..]), old(AllSlots()))
      ensures Outstanding() + filled == slots.Length - 1 || fragIndex == fragEnd
    {
      hide SaneSlots;
      hide Faithful;
      hide Count;
      hide Wrap;
      hide Next;
      hide AllFaithful;
      hide Blank;
      hide Slice;
      hide Walked;
      hide Matched;
      hide Buffers;
      hide Addresses;
      descIndex, fragIndex := descEnd, fragNext;
      var descFull := Wrap(descBegin + slots.Length - 1, slots.Length);
      filled := 0;
      ghost var o, addresses := Outstanding(), Addresses(frags[..]);
      RoomIs(descBegin, descEnd, slots.Length);
      Shift(fragBegin, o, fragEnd, frags.Length);
      Start(descEnd, slots.Length);
      Start(fragNext, frags.Length);
      SliceZero(addresses, fragNext);
      ghost var p0, wasSlots := |posted|, AllSlots();
      WalkStarts(slots[..], descEnd);
      assert posted[p0..] == [] && ReadsOf([]) == [];
      while descIndex != descFull
        modifies this`posted, slots
        invariant WritesAreSane()
        invariant o + filled <= slots.Length - 1 && descIndex == Wrap(descEnd + filled, slots.Length)
        invariant filled <= Count(fragNext, fragEnd, frags.Length) && fragIndex == Wrap(fragNext + filled, frags.Length)
        invariant p0 <= |posted| == |receipts| + o + filled && AllFaithful(receipts, posted)
        invariant Matched(Buffers(slots[..]), descBegin, addresses, fragBegin, posted[|receipts|..])
        invariant posted == old(posted) + Slice(addresses, fragNext, filled)
        invariant Walked(slots[..], descEnd, filled, ReadsOf(posted[p0..]), wasSlots)
        decreases slots.Length - 1 - o - filled
      {
        if fragIndex == fragEnd { break; }
        ghost var before, a := slots[..], frags[fragIndex].address;
        AddressAt(frags[..], fragIndex);
        Behind(descBegin, descEnd, filled, slots.Length);
        Behind(fragBegin, fragNext, filled, frags.Length);
        MatchedGrows(Buffers(before), descBegin, addresses, fragBegin, posted[|receipts|..]);
        slots[descIndex] := Read(frags[fragIndex].address);
        assert slots[..] == before[descIndex := Read(a)];
        SanePost(before, descIndex, a);
        BuffersUpdate(before, descIndex, Read(a));
        FillTurn(before, addresses, descEnd, fragNext, filled, posted[p0..], wasSlots);
        PostTurn(receipts, posted, p0, a);
        posted := posted + [a];
        NextWraps(fragNext, filled, frags.Length);
        NextWraps(descEnd, filled, slots.Length);
        fragIndex := Next(fragIndex, frags.Length);
        descIndex := Next(descIndex, slots.Length);
        filled := filled + 1;
      }
      CountIs(descEnd, filled, slots.Length);
    }

    /** Prepares more descriptors. The tail pointer is written if and only if the engine has something to
        do, new or left over. */
    method Refill(descNext: nat) returns (filled: nat, tailWritten: bool)
      requires Valid() && running && descNext < slots.Length
      requires Count(descBegin, descNext, slots.Length) <= Received()
      modifies this`descEnd, this`fragNext, this`tail, this`posted, slots
      ensures Valid() && Received() == old(Received())
      ensures filled <= old(Count(fragNext, fragEnd, frags.Length)) && Outstanding() == old(Outstanding()) + filled
      ensures Outstanding() == slots.Length - 1 || fragNext == fragEnd
      ensures fragNext == Wrap(old(fragNext) + filled, frags.Length)
      ensures posted == old(posted) + Slice(Addresses(frags[..]), old(fragNext), filled)
      ensures Walked(slots[..], old(descEnd), filled, ReadsOf(posted[|old(posted)|..]), old(AllSlots()))
      ensures tailWritten <==> filled > 0 || Count(descBegin, descNext, slots.Length) < old(Outstanding())
      ensures tail == if tailWritten then descEnd else old(tail)
    {
      hide Faithful;
      hide Count;
      hide Wrap;
      hide Next;
      hide AllFaithful;
      hide Blank;
      hide Slice;
      hide Walked;
      hide Matched;
      hide Buffers;
      hide Addresses;
      ghost var o := Outstanding();
      var descIndex, fragIndex;
      filled, descIndex, fragIndex := FillLoop();
      Start(descEnd, slots.Length);
      Start(fragNext, frags.Length);
      Shift(fragBegin, o, fragEnd, frags.Length);
      GuardIsExact(descBegin, Count(descBegin, descNext, slots.Length), o, filled, slots.Length);
      tailWritten := descIndex != descNext;
      if tailWritten {
        Extend(descBegin, descEnd, filled, slots.Length);
        Extend(fragBegin, fragNext, filled, frags.Length);
        tail, descEnd := descIndex, descIndex;
        fragNext := fragIndex;
      }
    }

    // ---- RxQueueAdvance: return what is left after a cancel ----

    method Drain()
      requires Valid() && !running
      modifies this`pktBegin, this`fragBegin, this`flushed, this`drained, packets
      ensures Valid() && drained && pktBegin == pktEnd && fragBegin == fragEnd
      ensures flushed == old(flushed) + old(Waiting())
      ensures var n := old(Waiting());
        Walked(packets[..], old(pktBegin), n, Ignored(old(AllPackets())[..n]), old(AllPackets()))
    {
      hide Faithful;
      hide Count;
      hide Wrap;
      hide Next;
      hide Ignored;
      hide AllFaithful;
      hide SaneSlots;
      hide Blank;
      hide Slice;
      hide Walked;
      hide Matched;
      hide Buffers;
      hide Addresses;
      var pktIndex := pktBegin;
      ghost var done, all := 0, AllPackets();
      WalkStarts(packets[..], pktBegin);
      Start(pktBegin, packets.Length);
      assert all[..0] == [];
      NoneIgnored();
      while pktIndex != pktEnd
        modifies packets
        invariant done <= Waiting() && pktIndex == Wrap(pktBegin + done, packets.Length)
        invariant Walked(packets[..], pktBegin, done, Ignored(all[..done]), all)
        decreases Waiting() - done
      {
        WalkGoesOn(packets[..], pktBegin, done, Ignored(all[..done]), all, packets[pktIndex].(ignore := true));
        assert all[..done + 1] == all[..done] + [all[done]];
        IgnoredSnoc(all[..done], all[done]);
        NextWraps(pktBegin, done, packets.Length);
        packets[pktIndex] := packets[pktIndex].(ignore := true);
        pktIndex := Next(pktIndex, packets.Length);
        done := done + 1;
      }
      CountIs(pktBegin, done, packets.Length);
      Nothing(pktEnd, packets.Length);
      flushed, drained := flushed + done, true;
      pktBegin, fragBegin := pktEnd, fragEnd;
      SliceZero(packets[..], pktBegin);
    }

    /** The drain behind `done` packets that were handed up from `begin` on. */
    method DrainBehind(ghost begin: nat, ghost done: nat)
      requires Valid() && !running && begin < packets.Length && done + Waiting() <= packets.Length && done < packets.Length
      requires pktBegin == Wrap(begin + done, packets.Length)
      modifies this`pktBegin, this`fragBegin, this`flushed, this`drained, packets
      ensures Valid() && drained && pktBegin == pktEnd && fragBegin == fragEnd
      ensures flushed == old(flushed) + old(Waiting())
      ensures Slice(packets[..], begin, done) == old(Slice(packets[..], begin, done))
      ensures forall p <- Slice(packets[..], old(pktBegin), old(Waiting())) :: p.ignore
    {
      hide AllFaithful;
      hide AllBlank;
      hide SaneSlots;
      hide Matched;
      hide Slice;
      hide Walked;
      ghost var ps, n := packets[..], Waiting();
      Drain();
      DrainKeeps(ps, packets[..], begin, done, n);
    }

    /** RxQueueAdvance. */
    method Advance() returns (done: nat)
      requires Valid()
      modifies this`descBegin, this`descEnd, this`pktBegin, this`fragBegin, this`fragNext, this`tail,
               this`posted, this`receipts, this`flushed, this`drained, slots, packets, frags
      ensures Valid() && done <= old(Received()) && done <= old(Waiting()) && done < packets.Length && done < frags.Length
      ensures |receipts| == |old(receipts)| + done && old(receipts) <= receipts && old(posted) <= posted
      ensures descBegin == Wrap(old(descBegin) + done, slots.Length)
      ensures old(Slice(slots[..], descBegin, done)) == SlotsOf(receipts[|old(receipts)|..])
      ensures Slice(packets[..], old(pktBegin), done) == PacketsOf(receipts[|old(receipts)|..])
      ensures Slice(frags[..], old(fragBegin), done) == FragsOf(receipts[|old(receipts)|..])
      ensures drained <==> old(drained) || (!running && done == old(Received()))
      ensures !drained ==> pktBegin == Wrap(old(pktBegin) + done, packets.Length)
      ensures running ==> Outstanding() == slots.Length - 1 || fragNext == fragEnd
      ensures running && Outstanding() > Received() ==> tail == descEnd
      ensures drained ==> flushed == old(flushed) + old(Waiting()) - done && |receipts| + flushed == given
      ensures drained ==> pktBegin == pktEnd && fragBegin == fragEnd
      ensures drained ==>
        forall p <- Slice(packets[..], Wrap(old(pktBegin) + done, packets.Length), old(Waiting()) - done) :: p.ignore
    {
      hide Faithful;
      hide AllFaithful;
      hide Blank;
      hide Wrap;
      hide Slice;
      hide Walked;
      hide Matched;
      hide Buffers;
      hide Addresses;
      hide PacketsOf;
      hide FragsOf;
      hide SlotsOf;
      var descNext := current;
      done := TakeReceived(descNext);
      WalkedOut(packets[..], old(pktBegin), done, PacketsOf(receipts[|old(receipts)|..]), old(AllPackets()));
      WalkedOut(frags[..], old(fragBegin), done, FragsOf(receipts[|old(receipts)|..]), old(AllFrags()));
      if running {
        var _, _ := Refill(descNext);
      } else if descBegin == descNext {
        DrainBehind(old(pktBegin), done);
      }
    }
  }
}
