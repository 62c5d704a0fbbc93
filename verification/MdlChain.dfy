/** Chains of memory descriptor lists: a transfer buffer scattered over several pieces. */
module MdlChain {
  import opened Machine32

  /** A piece of the buffer, and whether the system can map it. The links are never changed. */
  datatype Mdl = Null | Mdl(buffer: array<byte>, mapped: bool, next: Mdl)

  datatype NtStatus = Success | InfoLengthMismatch | IoDeviceError | InvalidTransaction

  function Buffers(m: Mdl): set<array<byte>> {
    match m
    case Null => {}
    case Mdl(buffer, _, next) => {buffer} + Buffers(next)
  }

  /** The pieces do not share memory. */
  predicate Disjoint(m: Mdl) { m.Mdl? ==> m.buffer !in Buffers(m.next) && Disjoint(m.next) }

  /** The whole buffer, piece after piece. */
  function Bytes(m: Mdl): seq<byte>
    reads Buffers(m)
  {
    match m
    case Null => []
    case Mdl(buffer, _, next) => buffer[..] + Bytes(next)
  }

  function ByteCount(m: Mdl): nat {
    match m
    case Null => 0
    case Mdl(buffer, _, next) => buffer.Length + ByteCount(next)
  }

  lemma {:induction false} BytesCount(m: Mdl)
    ensures |Bytes(m)| == ByteCount(m)
  {
    if m.Mdl? { BytesCount(m.next); }
  }

  lemma {:induction false} BuffersAreAllocated(m: Mdl)
    ensures forall b <- Buffers(m) :: allocated(b)
  {
    if m.Mdl? { BuffersAreAllocated(m.next); }
  }

  /** The piece that holds the byte at `index` is mapped. */
  predicate MappedAt(m: Mdl, index: nat) {
    m.Mdl? && if index < m.buffer.Length then m.mapped else MappedAt(m.next, index - m.buffer.Length)
  }

  lemma {:induction false} MappedIsInside(m: Mdl, index: nat)
    requires MappedAt(m, index)
    ensures index < ByteCount(m)
  {
    if index >= m.buffer.Length { MappedIsInside(m.next, index - m.buffer.Length); }
  }

  /** The piece that holds it, and where in the piece it lies. */
  function PieceOf(m: Mdl, index: nat): array<byte>
    requires MappedAt(m, index)
  {
    if index < m.buffer.Length then m.buffer else PieceOf(m.next, index - m.buffer.Length)
  }

  function OffsetOf(m: Mdl, index: nat): (r: nat)
    requires MappedAt(m, index)
    ensures r < PieceOf(m, index).Length
  {
    if index < m.buffer.Length then index else OffsetOf(m.next, index - m.buffer.Length)
  }

  /** MdlChainGetByte: an access succeeds if and only if it is inside the transfer and inside a piece that is
      mapped; where it fails, the caller's byte is left as it was. */
  method GetByte(chain: Mdl, length: nat, index: nat, was: byte) returns (status: NtStatus, b: byte)
    ensures status == Success <==> index < length && MappedAt(chain, index)
    ensures status == Success ==> index < |Bytes(chain)| && b == Bytes(chain)[index]
    ensures status != Success ==> status == InfoLengthMismatch && b == was
  {
    var mdl, currentOffset: nat := chain, index;
    status, b := InfoLengthMismatch, was;
    if index < length {
      while mdl.Mdl?
        invariant status == InfoLengthMismatch && b == was
        invariant MappedAt(chain, index) <==> MappedAt(mdl, currentOffset)
        invariant currentOffset < |Bytes(mdl)| ==> index < |Bytes(chain)| && Bytes(chain)[index] == Bytes(mdl)[currentOffset]
        decreases mdl
      {
        if currentOffset < mdl.buffer.Length {
          if mdl.mapped {
            b := mdl.buffer[currentOffset];
            status := Success;
          }
          break;
        }
        currentOffset := currentOffset - mdl.buffer.Length;
        mdl := mdl.next;
      }
    }
  }

  // ---- a chain cut after its first k pieces ----

  function Pieces(m: Mdl): nat { if m.Null? then 0 else 1 + Pieces(m.next) }

  function Drop(m: Mdl, k: nat): Mdl
    requires k <= Pieces(m)
  {
    if k == 0 then m else Drop(m.next, k - 1)
  }

  function FrontBuffers(m: Mdl, k: nat): set<array<byte>>
    requires k <= Pieces(m)
  {
    if k == 0 then {} else {m.buffer} + FrontBuffers(m.next, k - 1)
  }

  function Front(m: Mdl, k: nat): seq<byte>
    requires k <= Pieces(m)
    reads FrontBuffers(m, k)
  {
    if k == 0 then [] else m.buffer[..] + Front(m.next, k - 1)
  }

  lemma {:induction false} Cut(m: Mdl, k: nat)
    requires k <= Pieces(m)
    ensures Buffers(m) == FrontBuffers(m, k) + Buffers(Drop(m, k))
    ensures Disjoint(m) ==> FrontBuffers(m, k) !! Buffers(Drop(m, k)) && Disjoint(Drop(m, k))
    ensures Bytes(m) == Front(m, k) + Bytes(Drop(m, k))
  {
    if k > 0 {
      Cut(m.next, k - 1);
      assert Bytes(m) == m.buffer[..] + (Front(m.next, k - 1) + Bytes(Drop(m, k)));
    }
  }

  lemma {:induction false} DropNext(m: Mdl, k: nat)
    requires k < Pieces(m)
    ensures Drop(m, k).Mdl? && Drop(m, k + 1) == Drop(m, k).next
    ensures Pieces(Drop(m, k)) == Pieces(m) - k
  {
    if k > 0 { DropNext(m.next, k - 1); }
  }

  /** MdlChainSetByte: exactly one cell of memory changes, or none; so does the buffer, if its pieces do not
      share memory. */
  method SetByte(chain: Mdl, length: nat, index: nat, b: byte) returns (status: NtStatus)
    modifies Buffers(chain)
    ensures status == Success <==> index < length && MappedAt(chain, index)
    ensures status != Success ==> status == InfoLengthMismatch
    ensures forall p <- Buffers(chain), i: nat | old(allocated(p)) && i < p.Length ::
      p[i] == if status == Success && p == PieceOf(chain, index) && i == OffsetOf(chain, index) then b else old(p[i])
    ensures status == Success && Disjoint(chain) ==>
      index < old(|Bytes(chain)|) && Bytes(chain) == old(Bytes(chain))[index := b]
    ensures status != Success ==> Bytes(chain) == old(Bytes(chain))
  {
    var mdl, currentOffset: nat := chain, index;
    status := InfoLengthMismatch;
    if index < length {
      ghost var k := 0;
      while mdl.Mdl?
        invariant k <= Pieces(chain) && mdl == Drop(chain, k) && status == InfoLengthMismatch
        invariant MappedAt(chain, index) <==> MappedAt(mdl, currentOffset)
        invariant MappedAt(chain, index) ==>
          PieceOf(chain, index) == PieceOf(mdl, currentOffset) && OffsetOf(chain, index) == OffsetOf(mdl, currentOffset)
        invariant index == |Front(chain, k)| + currentOffset
        invariant Bytes(chain) == old(Bytes(chain))
        invariant forall p <- Buffers(chain) | old(allocated(p)) :: p[..] == old(p[..])
        decreases mdl
      {
        Cut(chain, k);
        if currentOffset < mdl.buffer.Length {
          if mdl.mapped {
            Store(chain, k, mdl, currentOffset, b);
            status := Success;
          }
          break;
        }
        NextIsInside(chain, k);
        DropNext(chain, k);
        Cut(chain, k + 1);
        FrontNext(chain, k);
        currentOffset := currentOffset - mdl.buffer.Length;
        mdl := mdl.next;
        k := k + 1;
      }
    }
  }

  lemma {:induction false} FrontNext(m: Mdl, k: nat)
    requires k < Pieces(m) && Drop(m, k).Mdl?
    ensures |Front(m, k + 1)| == |Front(m, k)| + Drop(m, k).buffer.Length
  {
    if k > 0 { FrontNext(m.next, k - 1); }
  }

  /** A store into piece number k, seen on the whole chain. */
  method Store(ghost chain: Mdl, ghost k: nat, mdl: Mdl, offset: nat, b: byte)
    requires k <= Pieces(chain) && mdl == Drop(chain, k) && mdl.Mdl? && offset < mdl.buffer.Length
    requires mdl.buffer in Buffers(chain)
    modifies mdl.buffer
    ensures mdl.buffer[..] == old(mdl.buffer[..])[offset := b]
    ensures var i := |old(Front(chain, k))| + offset;
      Disjoint(chain) ==> i < old(|Bytes(chain)|) && Bytes(chain) == old(Bytes(chain))[i := b]
  {
    Cut(chain, k);
    ghost var front, before, was, rest := Front(chain, k), Bytes(mdl), mdl.buffer[..], Bytes(mdl.next);
    mdl.buffer[offset] := b;
    if Disjoint(chain) {
      Cut(chain, k);
      assert Bytes(mdl) == was[offset := b] + rest;
    }
  }

  lemma {:induction false} NextIsInside(m: Mdl, k: nat)
    requires k <= Pieces(m) && Drop(m, k).Mdl?
    ensures k < Pieces(m)
  {
    if k > 0 { NextIsInside(m.next, k - 1); }
  }
}
