/** The MAC's reading of the descriptor stream, and the proof that it transmits the packets that were
    queued: every frame with its own bytes, MSS and VLAN tag, although context descriptors are elided. */
module TxMeaning {
  import opened Common
  import opened TxStream

  /** The device's context state. Its value before the first context descriptor is unknown. */
  datatype Device = Device(mss: nat, tag: bv16)

  /** A frame under construction or transmitted: the bus addresses of its bytes, in order. */
  datatype Frame = Frame(
    mss: nat, tag: Option<bv16>, headerLen: nat, payloadLen: nat, l4Words: nat,
    frameLen: nat, checksum: Checksum, bytes: seq<nat>)

  datatype State = State(dev: Device, open: Option<Frame>, sent: seq<Frame>, stray: bool)

  function Addresses(addr: nat, len: nat): seq<nat> {
    seq(len, i requires 0 <= i < len => addr + i)
  }

  function TagOf(insertTag: bool, dev: Device): Option<bv16> { if insertTag then Some(dev.tag) else None }

  /** One descriptor. A first descriptor opens a frame with the context that stands in the device; data
      without an open frame, or a first descriptor inside one, is a stray. */
  function Consume(s: State, d: Desc): State {
    match d
    case Context(mss, mssValid, tag, tagValid) =>
      s.(dev := Device(if mssValid then mss else s.dev.mss, if tagValid then tag else s.dev.tag))
    case Tso(addr, len, ins, payloadLen, l4Words) =>
      s.(open := Some(Frame(s.dev.mss, TagOf(ins, s.dev), len, payloadLen, l4Words, 0, NoChecksum, Addresses(addr, len))),
         stray := s.stray || s.open.Some?)
    case Data(addr, len, ins, interrupt, frameLen, checksum, last, first) =>
      if first then
        Finish(s.(open := Some(Frame(0, TagOf(ins, s.dev), 0, 0, 0, frameLen, checksum, Addresses(addr, len))),
                  stray := s.stray || s.open.Some?), last)
      else if s.open.None? then s.(stray := true)
      else
        Finish(s.(open := Some(s.open.value.(bytes := s.open.value.bytes + Addresses(addr, len)))), last)
  }

  function Finish(s: State, last: bool): State
    requires s.open.Some?
  {
    if last then s.(open := None, sent := s.sent + [s.open.value]) else s
  }

  function ConsumeAll(s: State, ds: seq<Desc>): State
    decreases |ds|
  {
    if ds == [] then s else ConsumeAll(Consume(s, ds[0]), ds[1..])
  }

  lemma {:induction false} ConsumeConcat(s: State, a: seq<Desc>, b: seq<Desc>)
    ensures ConsumeAll(s, a + b) == ConsumeAll(ConsumeAll(s, a), b)
    decreases |a|
  {
    if a == [] {
      assert a + b == b;
    } else {
      assert (a + b)[1..] == a[1..] + b;
      ConsumeConcat(Consume(s, a[0]), a[1..], b);
    }
  }

  lemma ConsumeOne(s: State, d: Desc)
    ensures ConsumeAll(s, [d]) == Consume(s, d)
  {
    assert [d][1..] == [];
  }

  // ---- what the packet asks for ----

  function BytesOf(frags: seq<Fragment>): seq<nat> {
    if frags == [] then [] else Addresses(frags[0].addr, frags[0].len) + BytesOf(frags[1..])
  }

  /** The frame a packet stands for, without any reference to descriptors. */
  function Expected(p: Packet, vlanId: bv16): Frame
    requires Sendable(p)
  {
    var tag := if VlanTag(p, vlanId) != 0 then Some(VlanTag(p, vlanId)) else None;
    if p.mss != 0 then
      SumFirst(p.frags);
      Frame(p.mss, tag, p.HeaderLength(), Sum(p.frags) - p.HeaderLength(), p.l4Len / 4, 0, NoChecksum, BytesOf(p.frags))
    else Frame(0, tag, 0, 0, 0, Sum(p.frags), ChecksumOf(p), BytesOf(p.frags))
  }

  /** The driver's cache tells the truth about the device, as far as it claims to know it. */
  predicate Coherent(c: Cache, dev: Device) {
    && (c.mss <= 0x3FFF ==> dev.mss == c.mss)
    && (c.tag != 0 ==> dev.tag == c.tag)
  }

  /** The start values claim nothing. */
  lemma StartIsCoherent(dev: Device)
    ensures Coherent(START, dev)
  {
  }

  // ---- data descriptors append exactly the packet's bytes ----

  lemma AddressesSplit(addr: nat, m: nat, n: nat)
    requires m <= n
    ensures Addresses(addr, n) == Addresses(addr, m) + Addresses(addr + m, n - m)
  {
  }

  function Grow(f: Frame, bytes: seq<nat>): Frame { f.(bytes := f.bytes + bytes) }

  lemma GrowTwice(f: Frame, a: seq<nat>, b: seq<nat>)
    ensures Grow(Grow(f, a), b) == Grow(f, a + b) && Grow(f, []) == f
  {
    assert f.bytes + a + b == f.bytes + (a + b) && f.bytes + [] == f.bytes;
  }

  lemma PieceBytes(s: State, addr: nat, n: nat, insertTag: bool, interrupt: bool, last: bool)
    requires s.open.Some?
    ensures Consume(s, Data(addr, n, insertTag, interrupt, 0, NoChecksum, last, false))
      == Finish(s.(open := Some(Grow(s.open.value, Addresses(addr, n)))), last)
  {
  }

  lemma {:induction false} PiecesBytes(s: State, f: Fragment, pos: nat, insertTag: bool, lastFrag: bool)
    requires pos <= f.len && s.open.Some?
    ensures ConsumeAll(s, Pieces(f, pos, insertTag, lastFrag))
      == var g := s.(open := Some(Grow(s.open.value, Addresses(f.addr + pos, f.len - pos))));
         if pos < f.len then Finish(g, lastFrag) else g
    decreases f.len - pos
  {
    hide Consume;
    hide Addresses;
    hide Grow;
    if pos == f.len {
      NoAddresses(f.addr + pos);
      GrowTwice(s.open.value, [], []);
    } else {
      var n := Min(f.len - pos, LENGTH_MAX);
      var last := pos + n == f.len && lastFrag;
      var d, rest := Data(f.addr + pos, n, insertTag, last, 0, NoChecksum, last, false), Pieces(f, pos + n, insertTag, lastFrag);
      assert Pieces(f, pos, insertTag, lastFrag) == [d] + rest;
      ConsumeConcat(s, [d], rest);
      ConsumeOne(s, d);
      PieceBytes(s, f.addr + pos, n, insertTag, last, last);
      AddressesSplit(f.addr + pos, n, f.len - pos);
      if pos + n < f.len {
        PiecesBytes(Consume(s, d), f, pos + n, insertTag, lastFrag);
        GrowTwice(s.open.value, Addresses(f.addr + pos, n), Addresses(f.addr + pos + n, f.len - pos - n));
      } else {
        assert rest == [];
      }
    }
  }

  lemma NoAddresses(addr: nat)
    ensures Addresses(addr, 0) == []
  {
  }

  /** The bytes of the fragments from `pos` in the first one on. */
  function BytesFrom(frags: seq<Fragment>, pos: nat): seq<nat>
    requires frags != [] && pos <= frags[0].len
  {
    Addresses(frags[0].addr + pos, frags[0].len - pos) + BytesOf(frags[1..])
  }

  lemma {:induction false} TsoDataBytes(s: State, frags: seq<Fragment>, pos: nat, insertTag: bool)
    requires frags != [] && pos <= frags[0].len && s.open.Some?
    requires forall f <- frags :: f.len != 0
    ensures ConsumeAll(s, TsoData(frags, pos, insertTag))
      == Finish(s.(open := Some(Grow(s.open.value, BytesFrom(frags, pos)))), Sum(frags) > pos)
    decreases |frags|
  {
    var a := Pieces(frags[0], pos, insertTag, |frags| == 1);
    var b := TsoData(frags[1..], 0, insertTag);
    ConsumeConcat(s, a, b);
    PiecesBytes(s, frags[0], pos, insertTag, |frags| == 1);
    var head := Addresses(frags[0].addr + pos, frags[0].len - pos);
    if |frags| == 1 {
      assert frags[1..] == [];
      assert head + [] == head;
    } else {
      var rest := frags[1..];
      SumFirst(rest);
      var s1 := ConsumeAll(s, a);
      TsoDataBytes(s1, rest, 0, insertTag);
      assert BytesFrom(rest, 0) == BytesOf(rest);
      assert s.open.value.bytes + head + BytesOf(rest) == s.open.value.bytes + BytesFrom(frags, pos);
    }
  }

  lemma {:induction false} BytesSnoc(frags: seq<Fragment>)
    requires frags != []
    ensures var n := |frags| - 1;
      BytesOf(frags) == BytesOf(frags[..n]) + Addresses(frags[n].addr, frags[n].len)
  {
    var n := |frags| - 1;
    if n == 0 {
      assert frags[1..] == [] && frags[..n] == [];
    } else {
      BytesSnoc(frags[1..]);
      assert frags[..n][1..] == frags[1..][..n - 1];
    }
  }

  lemma {:induction false} PlainPrefix(s: State, p: Packet, insertTag: bool, k: nat)
    requires s.open.None? && 0 < k <= |p.frags|
    ensures ConsumeAll(s, PlainData(p, insertTag)[..k])
      == Finish(s.(open := Some(Frame(0, TagOf(insertTag, s.dev), 0, 0, 0, Sum(p.frags), ChecksumOf(p), BytesOf(p.frags[..k])))),
                k == |p.frags|)
    decreases k
  {
    var ds := PlainData(p, insertTag);
    BytesSnoc(p.frags[..k]);
    assert p.frags[..k][..k - 1] == p.frags[..k - 1];
    assert ds[..k] == ds[..k - 1] + [ds[k - 1]];
    ConsumeConcat(s, ds[..k - 1], [ds[k - 1]]);
    if k == 1 {
      assert ds[..0] == [] && p.frags[..0] == [];
      assert BytesOf(p.frags[..1]) == Addresses(p.frags[0].addr, p.frags[0].len);
      ConsumeOne(s, ds[0]);
    } else {
      PlainPrefix(s, p, insertTag, k - 1);
      ConsumeOne(ConsumeAll(s, ds[..k - 1]), ds[k - 1]);
    }
  }

  // ---- one packet ----

  /** Reading one packet's descriptors: if the cache was right, the packet's own frame is built and the
      new cache is right again; the frame goes out exactly when the packet has something to send. */
  lemma PacketMeaning(s: State, p: Packet, vlanId: bv16, c: Cache)
    requires Sendable(p) && s.open.None? && Coherent(c, s.dev)
    ensures var t := ConsumeAll(s, PacketDescs(p, vlanId, c));
      && Coherent(NextCache(p, vlanId, c), t.dev)
      && t.stray == s.stray
      && t.sent == s.sent + (if HasPayload(p) then [Expected(p, vlanId)] else [])
      && t.open == (if HasPayload(p) then None else Some(Expected(p, vlanId)))
      && (HasPayload(p) ==> |t.sent| == |s.sent| + 1 && Carries(t.sent[|s.sent|], p, vlanId))
  {
    hide Carries;
    ExpectedCarries(p, vlanId);
    var ctx := ContextDescs(p, vlanId, c);
    var ctl := VlanTag(p, vlanId) != 0;
    var body := BodyDescs(p, ctl);
    ConsumeConcat(s, ctx, body);
    var s1 := ConsumeAll(s, ctx);
    if ctx != [] { ConsumeOne(s, ctx[0]); }
    assert Coherent(NextCache(p, vlanId, c), s1.dev);
    assert s1 == s.(dev := s1.dev);
    assert p.mss != 0 ==> s1.dev.mss == p.mss;
    assert ctl ==> s1.dev.tag == VlanTag(p, vlanId);
    if p.mss == 0 {
      assert body == body[..|p.frags|] && p.frags == p.frags[..|p.frags|];
      PlainPrefix(s1, p, ctl, |p.frags|);
    } else {
      TsoMeaning(s1, p, vlanId);
    }
  }

  lemma TsoHead(s: State, p: Packet, vlanId: bv16)
    requires Sendable(p) && p.mss != 0 && s.open.None? && s.dev.mss == p.mss
    requires VlanTag(p, vlanId) != 0 ==> s.dev.tag == VlanTag(p, vlanId)
    ensures var d := BodyDescs(p, VlanTag(p, vlanId) != 0)[0];
      Consume(s, d) == s.(open := Some(Expected(p, vlanId).(bytes := Addresses(p.frags[0].addr, p.HeaderLength()))))
  {
  }

  lemma TsoMeaning(s: State, p: Packet, vlanId: bv16)
    requires Sendable(p) && p.mss != 0 && s.open.None? && s.dev.mss == p.mss
    requires VlanTag(p, vlanId) != 0 ==> s.dev.tag == VlanTag(p, vlanId)
    ensures ConsumeAll(s, BodyDescs(p, VlanTag(p, vlanId) != 0))
      == Finish(s.(open := Some(Expected(p, vlanId))), HasPayload(p))
  {
    hide Consume;
    hide TsoData;
    hide ConsumeAll;
    var ctl := VlanTag(p, vlanId) != 0;
    var body := BodyDescs(p, ctl);
    var h := p.HeaderLength();
    var data := TsoData(p.frags, h, ctl);
    assert body == [body[0]] + data;
    ConsumeConcat(s, [body[0]], data);
    ConsumeOne(s, body[0]);
    TsoHead(s, p, vlanId);
    var s1 := Consume(s, body[0]);
    TsoDataBytes(s1, p.frags, h, ctl);
    AddressesSplit(p.frags[0].addr, h, p.frags[0].len);
    assert Addresses(p.frags[0].addr, h) + BytesFrom(p.frags, h) == BytesOf(p.frags);
  }

  // ---- whole streams ----

  predicate AllSendable(ps: seq<Packet>) { forall p <- ps :: Sendable(p) && HasPayload(p) }

  function FinalCache(ps: seq<Packet>, vlanId: bv16, c: Cache): Cache
    decreases |ps|
  {
    if ps == [] then c else FinalCache(ps[1..], vlanId, NextCache(ps[0], vlanId, c))
  }

  /** The descriptors of a list of packets, each under the cache left by the ones before. */
  function Stream(ps: seq<Packet>, vlanId: bv16, c: Cache): seq<Desc>
    requires AllSendable(ps)
  {
    if ps == [] then [] else PacketDescs(ps[0], vlanId, c) + Stream(ps[1..], vlanId, NextCache(ps[0], vlanId, c))
  }

  function ExpectedAll(ps: seq<Packet>, vlanId: bv16): seq<Frame>
    requires AllSendable(ps)
  {
    if ps == [] then [] else [Expected(ps[0], vlanId)] + ExpectedAll(ps[1..], vlanId)
  }

  /** From any device whatever, the descriptors of a list of packets transmit exactly those packets. */
  lemma {:induction false} StreamMeaning(s: State, ps: seq<Packet>, vlanId: bv16, c: Cache)
    requires AllSendable(ps) && s.open.None? && Coherent(c, s.dev)
    ensures var t := ConsumeAll(s, Stream(ps, vlanId, c));
      && t.sent == s.sent + ExpectedAll(ps, vlanId) && t.open.None? && t.stray == s.stray
      && Coherent(FinalCache(ps, vlanId, c), t.dev)
    decreases |ps|
  {
    hide Consume;
    hide PacketDescs;
    hide NextCache;
    hide Expected;
    hide Coherent;
    hide Carries;
    hide Sendable;
    hide HasPayload;
    if ps == [] {
      assert s.sent + [] == s.sent;
    } else {
      var rest := Stream(ps[1..], vlanId, NextCache(ps[0], vlanId, c));
      ConsumeConcat(s, PacketDescs(ps[0], vlanId, c), rest);
      PacketMeaning(s, ps[0], vlanId, c);
      StreamMeaning(ConsumeAll(s, PacketDescs(ps[0], vlanId, c)), ps[1..], vlanId, NextCache(ps[0], vlanId, c));
    }
  }

  /** The queue as started: no assumption about the device. */
  lemma QueueMeaning(dev: Device, ps: seq<Packet>, vlanId: bv16)
    requires AllSendable(ps)
    ensures var t := ConsumeAll(State(dev, None, [], false), Stream(ps, vlanId, START));
      t.sent == ExpectedAll(ps, vlanId) && t.open.None? && !t.stray
  {
    StreamMeaning(State(dev, None, [], false), ps, vlanId, START);
  }

  // ---- the frames, field by field ----

  function PriorityOf(p: Packet): bv16 { match p.priority case Some(x) => x case None => 0 }

  function VlanOf(p: Packet, vlanId: bv16): bv16 { match p.vlan case Some(x) => x case None => vlanId }

  function TagWord(priority: bv16, vlan: bv16): bv16 { (priority << 13) | vlan }

  /** What a receiver reads from a tag: priority in the upper three bits, VLAN in the others. */
  predicate TagReads(t: bv16, priority: bv16, vlan: bv16) { t >> 13 == priority && t & 0x1FFF == vlan }

  /** The tag has the packet's priority in its upper three bits and its VLAN in the others; without either the
      frame is not tagged. */
  predicate TagSays(tag: Option<bv16>, priority: bv16, vlan: bv16) {
    match tag
    case None => priority == 0 && vlan == 0
    case Some(t) => !(priority == 0 && vlan == 0) && TagReads(t, priority, vlan)
  }

  /** The frame goes out with its own bytes, in order. */
  ghost predicate HasBytes(bytes: seq<nat>, frags: seq<Fragment>) {
    |bytes| == Sum(frags) && forall j: nat, i: nat :: IsAt(bytes, frags, j, i)
  }

  /** Byte `i` of fragment `j` comes after those of the fragments before it. */
  predicate IsAt(bytes: seq<nat>, frags: seq<Fragment>, j: nat, i: nat) {
    j < |frags| && i < frags[j].len ==>
      Sum(frags[..j]) + i < |bytes| && bytes[Sum(frags[..j]) + i] == frags[j].addr + i
  }

  /** What the packet asks for is what the frame is. */
  ghost predicate Carries(f: Frame, p: Packet, vlanId: bv16) {
    && (PriorityOf(p) < 8 && VlanOf(p, vlanId) < 0x1000 ==> TagSays(f.tag, PriorityOf(p), VlanOf(p, vlanId)))
    && HasBytes(f.bytes, p.frags) && f.mss == p.mss
    && if p.mss != 0 then
         && f.headerLen == p.l2Len + p.l3Len + p.l4Len && f.headerLen + f.payloadLen == |f.bytes|
         && 4 * f.l4Words <= p.l4Len < 4 * f.l4Words + 4 && f.checksum == NoChecksum
       else
         && f.frameLen == |f.bytes|
         && (f.checksum == IncludingPseudo <==> p.checksum4) && (f.checksum == HeaderOnly <==> p.checksum3 && !p.checksum4)
  }

  lemma TagIs(p: Packet, vlanId: bv16)
    requires PriorityOf(p) < 8 && VlanOf(p, vlanId) < 0x1000
    ensures TagSays(if VlanTag(p, vlanId) != 0 then Some(VlanTag(p, vlanId)) else None, PriorityOf(p), VlanOf(p, vlanId))
  {
    hide VlanTag;
    hide PriorityOf;
    hide VlanOf;
    hide TagWord;
    hide TagReads;
    TagIsWord(p, vlanId);
    WordReads(PriorityOf(p), VlanOf(p, vlanId));
  }

  lemma TagIsWord(p: Packet, vlanId: bv16)
    ensures VlanTag(p, vlanId) == TagWord(PriorityOf(p), VlanOf(p, vlanId))
  {
  }

  lemma WordReads(priority: bv16, vlan: bv16)
    requires priority < 8 && vlan < 0x1000
    ensures TagReads(TagWord(priority, vlan), priority, vlan)
    ensures TagWord(priority, vlan) == 0 <==> priority == 0 && vlan == 0
  {
  }

  lemma OnlyWordReads(t: bv16, priority: bv16, vlan: bv16)
    requires priority < 8 && vlan < 0x1000
    ensures t == TagWord(priority, vlan) <==> TagReads(t, priority, vlan)
  {
    WordReads(priority, vlan);
    if TagReads(t, priority, vlan) { Rebuilt(t); }
  }

  lemma Rebuilt(t: bv16)
    ensures TagWord(t >> 13, t & 0x1FFF) == t
  {
  }

  lemma {:induction false} SumSnoc(frags: seq<Fragment>, j: nat)
    requires j < |frags|
    ensures Sum([]) == 0 && Sum(frags[..j + 1]) == Sum(frags[..j]) + frags[j].len
  {
    if j > 0 {
      SumSnoc(frags[1..], j - 1);
      assert frags[..j + 1][1..] == frags[1..][..j] && frags[..j][1..] == frags[1..][..j - 1];
    } else {
      assert frags[..1][1..] == [];
    }
  }

  lemma {:induction false} ByteAt(frags: seq<Fragment>, j: nat, i: nat)
    requires j < |frags| && i < frags[j].len
    ensures Sum(frags[..j]) + i < |BytesOf(frags)| && BytesOf(frags)[Sum(frags[..j]) + i] == frags[j].addr + i
  {
    if j > 0 {
      ByteAt(frags[1..], j - 1, i);
      assert frags[..j][1..] == frags[1..][..j - 1];
      assert frags[..j][0] == frags[0];
    } else {
      assert Addresses(frags[0].addr, frags[0].len)[i] == frags[0].addr + i;
    }
  }

  lemma {:induction false} BytesCount(frags: seq<Fragment>)
    ensures |BytesOf(frags)| == Sum(frags)
  {
    if frags != [] { BytesCount(frags[1..]); }
  }

  lemma ExpectedCarries(p: Packet, vlanId: bv16)
    requires Sendable(p)
    ensures Carries(Expected(p, vlanId), p, vlanId)
  {
    hide VlanTag;
    BytesCount(p.frags);
    forall j: nat, i: nat
      ensures IsAt(BytesOf(p.frags), p.frags, j, i)
    {
      if j < |p.frags| && i < p.frags[j].len { ByteAt(p.frags, j, i); }
    }
    if PriorityOf(p) < 8 && VlanOf(p, vlanId) < 0x1000 { TagIs(p, vlanId); }
    if p.mss != 0 { SumFirst(p.frags); }
  }

  lemma {:induction false} ExpectedIs(ps: seq<Packet>, vlanId: bv16, k: nat)
    requires AllSendable(ps) && k < |ps|
    ensures |ExpectedAll(ps, vlanId)| == |ps| && ExpectedAll(ps, vlanId)[k] == Expected(ps[k], vlanId)
  {
    if k > 0 { ExpectedIs(ps[1..], vlanId, k - 1); } else { ExpectedCount(ps, vlanId); }
  }

  lemma {:induction false} ExpectedCount(ps: seq<Packet>, vlanId: bv16)
    requires AllSendable(ps)
    ensures |ExpectedAll(ps, vlanId)| == |ps|
  {
    if ps != [] { ExpectedCount(ps[1..], vlanId); }
  }

  /** Frame k of the expected ones is what packet k asks for. */
  lemma ExpectedFrames(ps: seq<Packet>, vlanId: bv16)
    requires AllSendable(ps)
    ensures |ExpectedAll(ps, vlanId)| == |ps|
    ensures forall k: nat | k < |ps| :: Carries(ExpectedAll(ps, vlanId)[k], ps[k], vlanId)
  {
    hide Carries;
    ExpectedCount(ps, vlanId);
    forall k: nat | k < |ps|
      ensures Carries(ExpectedAll(ps, vlanId)[k], ps[k], vlanId)
    {
      ExpectedIs(ps, vlanId, k);
      ExpectedCarries(ps[k], vlanId);
    }
  }

  /** Any packets in any order from any device, field by field: frame k has packet k's bytes, tag, segment size,
      header and payload lengths and checksum mode. */
  lemma FramesAreAsAsked(dev: Device, ps: seq<Packet>, vlanId: bv16)
    requires AllSendable(ps)
    ensures var sent := ConsumeAll(State(dev, None, [], false), Stream(ps, vlanId, START)).sent;
      |sent| == |ps| && forall k: nat | k < |ps| :: Carries(sent[k], ps[k], vlanId)
  {
    hide Carries;
    QueueMeaning(dev, ps, vlanId);
    ExpectedFrames(ps, vlanId);
  }

  // ---- how much is written ----

  /** A context descriptor is written exactly when the segment size or the tag is not the last one written. */
  lemma ContextOnlyOnChange(p: Packet, vlanId: bv16, c: Cache)
    requires PriorityOf(p) < 8 && VlanOf(p, vlanId) < 0x1000
    ensures ContextDescs(p, vlanId, c) == [] <==>
      && (p.mss == 0 || p.mss == c.mss)
      && ((PriorityOf(p) == 0 && VlanOf(p, vlanId) == 0) || TagReads(c.tag, PriorityOf(p), VlanOf(p, vlanId)))
    ensures |ContextDescs(p, vlanId, c)| <= 1
  {
    hide VlanTag;
    hide PriorityOf;
    hide VlanOf;
    hide TagWord;
    hide TagReads;
    TagIsWord(p, vlanId);
    WordReads(PriorityOf(p), VlanOf(p, vlanId));
    OnlyWordReads(c.tag, PriorityOf(p), VlanOf(p, vlanId));
  }

  /** A context descriptor of the packet has the packet's own tag and segment size. */
  lemma ContextSays(p: Packet, vlanId: bv16, c: Cache)
    requires Sendable(p) && PriorityOf(p) < 8 && VlanOf(p, vlanId) < 0x1000
    ensures forall d <- PacketDescs(p, vlanId, c) :: d.Context? ==> TagReads(d.tag, PriorityOf(p), VlanOf(p, vlanId)) && d.mss == p.mss
  {
    hide VlanTag;
    hide PriorityOf;
    hide VlanOf;
    hide TagWord;
    hide TagReads;
    hide TsoData;
    TagIsWord(p, vlanId);
    WordReads(PriorityOf(p), VlanOf(p, vlanId));
    if p.mss != 0 { TsoDataShape(p.frags, p.HeaderLength(), VlanTag(p, vlanId) != 0); }
  }

  /** A packet like the one before it gets none. */
  lemma SameContextOnce(p: Packet, q: Packet, vlanId: bv16, c: Cache)
    requires q.mss == p.mss && q.priority == p.priority && q.vlan == p.vlan
    ensures ContextDescs(q, vlanId, NextCache(p, vlanId, c)) == []
  {
    TagIsWord(p, vlanId);
    TagIsWord(q, vlanId);
    hide VlanTag;
    hide TagWord;
  }
}
