/** Sizing of the descriptor rings and conversion between ring indices and descriptor addresses. */
module QueueCommon {
  import opened Machine32
  import opened TxStream

  const DESCRIPTOR_SIZE: nat := 64
  const MIN_COUNT: nat := 64       // PAGE_SIZE / DESCRIPTOR_SIZE
  const MAX_COUNT: nat := 0x400
  const ALIGNMENT: nat := MAX_COUNT * DESCRIPTOR_SIZE

  function Power2(k: nat): (r: nat)
    ensures r > 0
  {
    if k == 0 then 1 else 2 * Power2(k - 1)
  }

  /** _BitScanReverse: the index of the highest bit set. */
  function HighestBit(n: nat): (k: nat)
    requires n > 0
    ensures Power2(k) <= n < 2 * Power2(k)
  {
    if n == 1 then 0 else HighestBit(n / 2) + 1
  }

  function Clamp(fragments: nat): nat {
    if fragments < MIN_COUNT then MIN_COUNT else if fragments > MAX_COUNT then MAX_COUNT else fragments
  }

  function DescriptorCount(fragments: nat): nat {
    2 * Power2(HighestBit(Clamp(fragments) - 1))
  }

  lemma {:induction false} Power2Monotone(j: nat, k: nat)
    requires j <= k
    ensures Power2(j) <= Power2(k)
    decreases k
  {
    if j < k { Power2Monotone(j, k - 1); }
  }

  lemma {:induction false} Power2Below(j: nat, k: nat)
    requires Power2(j) < Power2(k)
    ensures j < k
  {
    if k <= j { Power2Monotone(k, j); }
  }

  /** The ring size is the least power of two that holds the clamped request. */
  lemma LeastPowerOfTwo(fragments: nat)
    ensures exists k :: DescriptorCount(fragments) == Power2(k)
    ensures Clamp(fragments) <= DescriptorCount(fragments)
    ensures forall k :: Clamp(fragments) <= Power2(k) ==> DescriptorCount(fragments) <= Power2(k)
  {
    var b := HighestBit(Clamp(fragments) - 1);
    assert DescriptorCount(fragments) == Power2(b + 1);
    forall k | Clamp(fragments) <= Power2(k)
      ensures DescriptorCount(fragments) <= Power2(k)
    {
      Power2Below(b, k);
      Power2Monotone(b + 1, k);
    }
  }

  /** The ring sizes are the ones the hardware takes. */
  lemma RingSizes(fragments: nat)
    ensures DescriptorCount(fragments) in {64, 128, 256, 512, 1024}
  {
    hide Power2;
    var b := HighestBit(Clamp(fragments) - 1);
    SmallPowers();
    LeastPowerOfTwo(fragments);
    Power2Below(5, b + 1) by { SizeIsPower(fragments); }
    Power2Below(b, 10);
    SizeIsPower(fragments);
  }

  /** A request that the hardware can have is rounded up by less than a factor of two; a smaller or larger one
      gets the least or the most there is. */
  lemma RequestIsMet(fragments: nat)
    ensures 64 <= fragments <= 1024 ==> fragments <= DescriptorCount(fragments) < 2 * fragments
    ensures fragments < 64 ==> DescriptorCount(fragments) == 64
    ensures fragments > 1024 ==> DescriptorCount(fragments) == 1024
  {
    hide Power2;
    var b := HighestBit(Clamp(fragments) - 1);
    SmallPowers();
    RingSizes(fragments);
    SizeIsPower(fragments);
    assert Power2(b) <= Clamp(fragments) - 1 < 2 * Power2(b);
    assert Power2(b + 1) == 2 * Power2(b) by { PowerNext(b); }
  }

  lemma PowerNext(b: nat)
    ensures Power2(b + 1) == 2 * Power2(b)
  {
  }

  lemma SizeIsPower(fragments: nat)
    ensures DescriptorCount(fragments) == Power2(HighestBit(Clamp(fragments) - 1) + 1)
  {
  }

  lemma SmallPowers()
    ensures Power2(5) == 32 && Power2(6) == 64 && Power2(7) == 128 && Power2(8) == 256
    ensures Power2(9) == 512 && Power2(10) == 1024
  {
    assert Power2(5) == 32 by { assert Power2(3) == 8; }
    assert Power2(8) == 256 by { assert Power2(6) == 64; }
  }

  /** The register value that SetDescEnd writes. */
  function DescriptorAddress(base: u32, index: nat): u32 {
    Wrap32(base + index * DESCRIPTOR_SIZE)
  }

  function AddressToIndex(address: u32): nat {
    address % ALIGNMENT / DESCRIPTOR_SIZE
  }

  /** Reading back an index from the register gives the index, for any base the allocator returns. */
  lemma IndexRoundTrip(base: u32, index: nat)
    requires base % ALIGNMENT == 0 && index < MAX_COUNT
    ensures AddressToIndex(DescriptorAddress(base, index)) == index
  {
    var q, offset := base / ALIGNMENT, index * DESCRIPTOR_SIZE;
    assert base == ALIGNMENT * q && q < 0x1_0000 && offset < ALIGNMENT;
    assert DescriptorAddress(base, index) == ALIGNMENT * q + offset;
    assert (ALIGNMENT * q + offset) % ALIGNMENT == offset;
  }

  /** A packet within the advertised limits always fits an empty ring of any size in use, whatever
      context it needs: a ring that drains never blocks its next packet. */
  lemma EmptyRingTakesAny(p: Packet, vlanId: bv16, c: Cache, fragments: nat)
    requires Sendable(p)
    ensures Needed(p, vlanId, c) <= DescriptorCount(fragments) - 1
  {
    PacketShape(p, vlanId, c);
    RingSizes(fragments);
  }
}
