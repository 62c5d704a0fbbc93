/** What the TX queue of dwc_eqos writes for a packet, as a value, and what the MAC makes of it.
    A context descriptor is written only when the driver believes that the device's MSS or VLAN tag
    differs, so the meaning of a packet's descriptors depends on everything sent before. */
module TxStream {
  import opened Common

  const LENGTH_MAX: nat := 0x3FFF          // 14 bits
  const MAX_FRAGMENTS: nat := 61           // QueueDescriptorMinCount - 3
  const HEADER_LIMIT: nat := 0x3FF
  const MAX_OFFLOAD: nat := 0x3FFFF

  datatype Fragment = Fragment(addr: nat, len: nat)

  datatype Packet = Packet(
    frags: seq<Fragment>,
    mss: nat,                                  // 0: no segmentation offload
    tcp: bool, l2Len: nat, l3Len: nat, l4Len: nat,
    priority: Option<bv16>, vlan: Option<bv16>, // tagging actions required for this packet
    checksum3: bool, checksum4: bool)
  {
    function HeaderLength(): nat { l2Len + l3Len + l4Len }
  }

  datatype Checksum = NoChecksum | HeaderOnly | IncludingPseudo

  datatype Desc =
    | Context(mss: nat, mssValid: bool, tag: bv16, tagValid: bool)
    | Tso(addr: nat, len: nat, insertTag: bool, payloadLen: nat, l4Words: nat)
    | Data(addr: nat, len: nat, insertTag: bool, interrupt: bool, frameLen: nat,
           checksum: Checksum, last: bool, first: bool)

  predicate IsLast(d: Desc) { d.Data? && d.last }

  /** What the driver remembers of the context descriptors it wrote. */
  datatype Cache = Cache(mss: nat, tag: bv16)

  /** TxQueueStart: no offload packet has this MSS and no tagged packet has this tag. */
  const START: Cache := Cache(0xFFFF, 0)

  // ---- packets as the framework hands them over ----

  function Sum(frags: seq<Fragment>): nat {
    if frags == [] then 0 else frags[0].len + Sum(frags[1..])
  }

  function CeilDiv(n: nat, d: nat): (r: nat)
    requires d > 0
  {
    (n + d - 1) / d
  }

  function UserDescriptors(frags: seq<Fragment>): nat {
    if frags == [] then 0 else CeilDiv(frags[0].len, LENGTH_MAX) + UserDescriptors(frags[1..])
  }

  /** The assertions that the source makes about a packet before and while it writes descriptors. */
  predicate Sendable(p: Packet) {
    && 0 < |p.frags| <= MAX_FRAGMENTS
    && p.mss <= 0x3FFF
    && (p.mss == 0 ==> Sum(p.frags) <= 0x7FFF && forall f <- p.frags :: f.len <= LENGTH_MAX)
    && (p.mss != 0 ==>
        && (if p.tcp then 20 <= p.l4Len <= 60 else p.l4Len == 8)
        && p.HeaderLength() <= HEADER_LIMIT
        && p.HeaderLength() <= p.frags[0].len
        && Sum(p.frags) <= MAX_OFFLOAD + p.HeaderLength()
        && UserDescriptors(p.frags) <= MAX_FRAGMENTS
        && forall f <- p.frags :: f.len != 0)
  }

  /** An offload packet has something beyond its headers. */
  predicate HasPayload(p: Packet) { p.mss != 0 ==> Sum(p.frags) > p.HeaderLength() }

  function VlanTag(p: Packet, vlanId: bv16): bv16 {
    ((if p.priority.Some? then p.priority.value else 0) << 13) | (if p.vlan.Some? then p.vlan.value else vlanId)
  }

  // ---- descriptors of a packet ----

  predicate TagNeeded(p: Packet, vlanId: bv16, c: Cache) {
    VlanTag(p, vlanId) != 0 && VlanTag(p, vlanId) != c.tag
  }

  predicate MssNeeded(p: Packet, c: Cache) { p.mss != 0 && p.mss != c.mss }

  predicate ContextNeeded(p: Packet, vlanId: bv16, c: Cache) { TagNeeded(p, vlanId, c) || MssNeeded(p, c) }

  function ContextDescs(p: Packet, vlanId: bv16, c: Cache): seq<Desc> {
    if !ContextNeeded(p, vlanId, c) then []
    else if p.mss != 0 then [Context(p.mss, true, VlanTag(p, vlanId), TagNeeded(p, vlanId, c))]
    else [Context(0, false, VlanTag(p, vlanId), true)]
  }

  function NextCache(p: Packet, vlanId: bv16, c: Cache): Cache {
    Cache(if MssNeeded(p, c) then p.mss else c.mss,
          if TagNeeded(p, vlanId, c) then VlanTag(p, vlanId) else c.tag)
  }

  function Min(a: nat, b: nat): nat { if a < b then a else b }

  /** The rest of a fragment from `pos` on, in pieces of at most 14 bits. */
  function Pieces(f: Fragment, pos: nat, insertTag: bool, lastFrag: bool): seq<Desc>
    requires pos <= f.len
    decreases f.len - pos
  {
    if pos == f.len then []
    else
      var n := Min(f.len - pos, LENGTH_MAX);
      var last := pos + n == f.len && lastFrag;
      [Data(f.addr + pos, n, insertTag, last, 0, NoChecksum, last, false)] + Pieces(f, pos + n, insertTag, lastFrag)
  }

  /** The payload of an offload packet: the first fragment from `pos` on, and all of the others. */
  function TsoData(frags: seq<Fragment>, pos: nat, insertTag: bool): seq<Desc>
    requires frags != [] ==> pos <= frags[0].len
  {
    if frags == [] then []
    else Pieces(frags[0], pos, insertTag, |frags| == 1) + TsoData(frags[1..], 0, insertTag)
  }

  function ChecksumOf(p: Packet): Checksum {
    if p.checksum4 then IncludingPseudo else if p.checksum3 then HeaderOnly else NoChecksum
  }

  function PlainDesc(p: Packet, i: nat, insertTag: bool): Desc
    requires i < |p.frags|
  {
    Data(p.frags[i].addr, p.frags[i].len, insertTag, i == |p.frags| - 1, Sum(p.frags), ChecksumOf(p),
         i == |p.frags| - 1, i == 0)
  }

  function PlainData(p: Packet, insertTag: bool): seq<Desc> {
    seq(|p.frags|, i requires 0 <= i < |p.frags| => PlainDesc(p, i, insertTag))
  }

  function BodyDescs(p: Packet, insertTag: bool): seq<Desc>
    requires Sendable(p)
  {
    if p.mss == 0 then PlainData(p, insertTag)
    else
      [Tso(p.frags[0].addr, p.HeaderLength(), insertTag, Sum(p.frags) - p.HeaderLength(), p.l4Len / 4)]
      + TsoData(p.frags, p.HeaderLength(), insertTag)
  }

  lemma {:induction false} SumFirst(frags: seq<Fragment>)
    requires frags != []
    ensures frags[0].len <= Sum(frags)
  {
  }

  /** All the descriptors of one packet. */
  function PacketDescs(p: Packet, vlanId: bv16, c: Cache): (r: seq<Desc>)
    requires Sendable(p)
  {
    ContextDescs(p, vlanId, c) + BodyDescs(p, VlanTag(p, vlanId) != 0)
  }

  /** The number of free descriptors the driver asks for before it writes any. */
  function Needed(p: Packet, vlanId: bv16, c: Cache): nat {
    if p.mss == 0 then |p.frags| + (if TagNeeded(p, vlanId, c) then 1 else 0)
    else UserDescriptors(p.frags) + (if ContextNeeded(p, vlanId, c) then 1 else 0) + 1
  }

  // ---- the TSO split ----

  lemma CeilDivSteps(n: nat)
    requires n > 0
    ensures CeilDiv(n, LENGTH_MAX) == 1 + (if n <= LENGTH_MAX then 0 else CeilDiv(n - LENGTH_MAX, LENGTH_MAX))
  {
  }

  lemma CeilDivMonotone(m: nat, n: nat)
    requires m <= n
    ensures CeilDiv(m, LENGTH_MAX) <= CeilDiv(n, LENGTH_MAX)
  {
  }

  /** The pieces are at most ceil(rest / max), of 1 to max bytes each, none first, and only the final
      piece of the final fragment is last. */
  lemma {:induction false} PiecesShape(f: Fragment, pos: nat, insertTag: bool, lastFrag: bool)
    requires pos <= f.len
    ensures var r := Pieces(f, pos, insertTag, lastFrag);
      && |r| == CeilDiv(f.len - pos, LENGTH_MAX)
      && (forall d <- r :: d.Data? && 1 <= d.len <= 0x3FFF && !d.first && d.insertTag == insertTag && d.interrupt == d.last)
      && (forall i :: 0 <= i < |r| ==> (IsLast(r[i]) <==> lastFrag && i == |r| - 1))
    decreases f.len - pos
  {
    if pos < f.len {
      var n := Min(f.len - pos, LENGTH_MAX);
      CeilDivSteps(f.len - pos);
      PiecesShape(f, pos + n, insertTag, lastFrag);
    }
  }

  lemma {:induction false} TsoDataShape(frags: seq<Fragment>, pos: nat, insertTag: bool)
    requires frags != [] ==> pos <= frags[0].len
    requires forall f <- frags :: f.len != 0
    ensures var r := TsoData(frags, pos, insertTag);
      && |r| <= UserDescriptors(frags)
      && (forall d <- r :: d.Data? && 1 <= d.len <= 0x3FFF && !d.first && d.interrupt == d.last)
      && (forall i :: 0 <= i < |r| ==> (IsLast(r[i]) <==> i == |r| - 1))
      && (r == [] <==> Sum(frags) == pos || frags == [])
    decreases |frags|
  {
    if frags != [] {
      PiecesShape(frags[0], pos, insertTag, |frags| == 1);
      CeilDivMonotone(frags[0].len - pos, frags[0].len);
      TsoDataShape(frags[1..], 0, insertTag);
      var a, b := Pieces(frags[0], pos, insertTag, |frags| == 1), TsoData(frags[1..], 0, insertTag);
      if |frags| > 1 {
        assert frags[1] == frags[1..][0];
        SumFirst(frags[1..]);
        assert b != [];
      }
    }
  }

  /** The shape of a packet's descriptors: never more than were asked for, and the last one - it alone - is
      marked last, exactly when the packet has something beyond its headers. */
  lemma PacketShape(p: Packet, vlanId: bv16, c: Cache)
    requires Sendable(p)
    ensures var r := PacketDescs(p, vlanId, c);
      && 0 < |r| <= Needed(p, vlanId, c) <= 63
      && (forall i :: 0 <= i < |r| - 1 ==> !IsLast(r[i]))
      && (IsLast(r[|r| - 1]) <==> HasPayload(p))
  {
    var ctl := VlanTag(p, vlanId) != 0;
    if p.mss != 0 {
      TsoDataShape(p.frags, p.HeaderLength(), ctl);
      SumFirst(p.frags);
    }
  }

  lemma CeilDivClose(m: nat, n: nat)
    requires m <= n <= m + LENGTH_MAX
    ensures CeilDiv(n, LENGTH_MAX) <= CeilDiv(m, LENGTH_MAX) + 1
  {
  }

  lemma {:induction false} TsoDataCount(frags: seq<Fragment>, pos: nat, insertTag: bool)
    requires frags != [] && pos <= frags[0].len && pos <= LENGTH_MAX
    ensures var n := |TsoData(frags, pos, insertTag)|;
      UserDescriptors(frags) == n || (pos > 0 && UserDescriptors(frags) == n + 1)
    decreases |frags|
  {
    PiecesShape(frags[0], pos, insertTag, |frags| == 1);
    CeilDivClose(frags[0].len - pos, frags[0].len);
    CeilDivMonotone(frags[0].len - pos, frags[0].len);
    if |frags| > 1 { TsoDataCount(frags[1..], 0, insertTag); }
  }

  /** What is asked for is what is used: exactly so for an ordinary packet, and up to one more for a packet to
      be segmented, whose headers may save a descriptor. */
  lemma NeededIsTight(p: Packet, vlanId: bv16, c: Cache)
    requires Sendable(p)
    ensures var r := PacketDescs(p, vlanId, c);
      if p.mss == 0 then Needed(p, vlanId, c) == |r| else Needed(p, vlanId, c) in {|r|, |r| + 1}
  {
    hide VlanTag;
    hide TsoData;
    hide UserDescriptors;
    if p.mss != 0 { TsoDataCount(p.frags, p.HeaderLength(), VlanTag(p, vlanId) != 0); }
  }

  /** Only the last descriptor of a packet interrupts. */
  lemma OnlyLastInterrupts(p: Packet, vlanId: bv16, c: Cache)
    requires Sendable(p)
    ensures forall d <- PacketDescs(p, vlanId, c) :: d.Data? ==> (d.interrupt <==> d.last)
  {
    hide VlanTag;
    hide TsoData;
    var ctl := VlanTag(p, vlanId) != 0;
    if p.mss != 0 { TsoDataShape(p.frags, p.HeaderLength(), ctl); }
  }

  /** One fragment that ends with its headers. */
  function HeadersOnly(): Packet {
    Packet([Fragment(0x1000, 54)], 1460, true, 14, 20, 20, None, None, false, false)
  }

  /** Headers without payload are a packet that the source accepts but never marks as finished. */
  lemma HeadersOnlyNeverFinish(vlanId: bv16, c: Cache)
    ensures Sendable(HeadersOnly())
    ensures forall d <- PacketDescs(HeadersOnly(), vlanId, c) :: !IsLast(d)
  {
    var p := HeadersOnly();
    assert p.frags[1..] == [];
    assert Sum(p.frags) == 54 && UserDescriptors(p.frags) == 1;
    PacketShape(p, vlanId, c);
  }
}
