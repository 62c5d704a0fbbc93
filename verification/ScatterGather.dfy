/** Scatter-gather lists compiled to the descriptor tables of the two SD host controllers: IDMAC
    descriptors for dwcmshc, ADMA2 entries for dwcsdhc. */
module ScatterGather {
  import opened Machine32

  const IDMAC_MAX_LENGTH: nat := 0x1000
  const ADMA2_MAX_LENGTH: nat := 0xF000

  /** The longest piece that one descriptor can name. */
  type Max = m: nat | m == IDMAC_MAX_LENGTH || m == ADMA2_MAX_LENGTH witness IDMAC_MAX_LENGTH

  /** An element of the list, and a piece of memory that one descriptor names. */
  datatype Piece = Piece(address: nat, length: nat)

  /** The elements are nonempty and lie below `limit`. */
  predicate Usable(es: seq<Piece>, limit: nat) {
    forall e <- es :: e.length > 0 && e.address + e.length <= limit
  }

  // ---- what a table is to describe ----

  function Cut(e: Piece, max: Max): (r: seq<Piece>)
    decreases e.length
  {
    if e.length == 0 then []
    else
      var n := if e.length < max then e.length else max;
      [Piece(e.address, n)] + Cut(Piece(e.address + n, e.length - n), max)
  }

  function Pieces(es: seq<Piece>, max: Max): seq<Piece>
  {
    if es == [] then [] else Cut(es[0], max) + Pieces(es[1..], max)
  }

  /** Every byte address, in order. */
  function Addresses(ps: seq<Piece>): seq<nat> {
    if ps == [] then [] else seq(ps[0].length, i requires i >= 0 => ps[0].address + i) + Addresses(ps[1..])
  }

  /** The bytes of one piece, one by one. */
  lemma AddressesOfOne(p: Piece)
    ensures |Addresses([p])| == p.length && forall i :: 0 <= i < p.length ==> Addresses([p])[i] == p.address + i
  {
    assert [p][1..] == [];
  }

  function TotalLength(ps: seq<Piece>): nat { if ps == [] then 0 else ps[0].length + TotalLength(ps[1..]) }

  function EntryCount(es: seq<Piece>, max: Max): nat
  {
    if es == [] then 0 else (es[0].length + max - 1) / max + EntryCount(es[1..], max)
  }

  lemma {:induction false} AddressesConcat(a: seq<Piece>, b: seq<Piece>)
    ensures Addresses(a + b) == Addresses(a) + Addresses(b)
  {
    if a == [] {
      assert a + b == b;
    } else {
      assert (a + b)[1..] == a[1..] + b;
      AddressesConcat(a[1..], b);
    }
  }

  lemma {:induction false} CutAddresses(e: Piece, max: Max)
    ensures Addresses(Cut(e, max)) == Addresses([e])
    decreases e.length
  {
    if e.length > 0 {
      var n := if e.length < max then e.length else max;
      var rest := Piece(e.address + n, e.length - n);
      CutAddresses(rest, max);
      assert Addresses([rest]) == seq(rest.length, i requires i >= 0 => rest.address + i) + Addresses([]);
      assert Addresses([e]) == seq(e.length, i requires i >= 0 => e.address + i) + Addresses([]);
      assert Cut(e, max)[1..] == Cut(rest, max);
    } else {
      assert Addresses([e]) == [];
    }
  }

  /** The pieces name the same bytes in the same order as the list. */
  lemma {:induction false} SameBytes(es: seq<Piece>, max: Max)
    ensures Addresses(Pieces(es, max)) == Addresses(es)
  {
    if es != [] {
      CutAddresses(es[0], max);
      SameBytes(es[1..], max);
      AddressesConcat(Cut(es[0], max), Pieces(es[1..], max));
      AddressesConcat([es[0]], es[1..]);
      assert es == [es[0]] + es[1..];
    }
  }

  lemma {:induction false} AddressCount(ps: seq<Piece>)
    ensures |Addresses(ps)| == TotalLength(ps)
  {
    if ps != [] { AddressCount(ps[1..]); }
  }

  lemma {:induction false} CutCount(e: Piece, max: Max)
    ensures |Cut(e, max)| == (e.length + max - 1) / max
    ensures forall p <- Cut(e, max) :: 0 < p.length <= max && e.address <= p.address && p.address + p.length <= e.address + e.length
    decreases e.length
  {
    if e.length > 0 {
      var n := if e.length < max then e.length else max;
      CutCount(Piece(e.address + n, e.length - n), max);
      OneMore(e.length, n, max);
    }
  }

  lemma OneMore(length: nat, n: nat, max: Max)
    requires length > 0 && n == if length < max then length else max
    ensures (length + max - 1) / max == 1 + (length - n + max - 1) / max
  {
    if max == IDMAC_MAX_LENGTH {
      assert length < max ==> (length + 0xFFF) / 0x1000 == 1;
    } else {
      assert length < max ==> (length + 0xEFFF) / 0xF000 == 1;
    }
  }

  /** Numbers and sizes of the pieces. */
  lemma {:induction false} PiecesFit(es: seq<Piece>, max: Max, limit: nat)
    requires Usable(es, limit)
    ensures |Pieces(es, max)| == EntryCount(es, max) && (es != [] ==> Pieces(es, max) != [])
    ensures forall p <- Pieces(es, max) :: 0 < p.length <= max && p.address + p.length <= limit
    ensures TotalLength(Pieces(es, max)) == TotalLength(es)
  {
    AddressCount(es);
    AddressCount(Pieces(es, max));
    SameBytes(es, max);
    if es != [] {
      CutCount(es[0], max);
      PiecesFit(es[1..], max, limit);
      assert es[0] in es && forall e <- es[1..] :: e in es;
      AtLeastOne(es[0].length, max);
    }
  }

  lemma AtLeastOne(length: nat, max: Max)
    requires length > 0
    ensures (length + max - 1) / max >= 1
  {
    OneMore(length, if length < max then length else max, max);
  }

  /** The longest pieces are 4096 bytes for the one controller and 61440 for the other, and no piece is cut
      shorter than it could be. */
  lemma LongestPieces(e: Piece)
    ensures forall p <- Cut(e, IDMAC_MAX_LENGTH) :: p.length <= 4096
    ensures forall p <- Cut(e, ADMA2_MAX_LENGTH) :: p.length <= 61440
    ensures |Cut(e, IDMAC_MAX_LENGTH)| == (e.length + 4095) / 4096 && |Cut(e, ADMA2_MAX_LENGTH)| == (e.length + 61439) / 61440
  {
    CutCount(e, IDMAC_MAX_LENGTH);
    CutCount(e, ADMA2_MAX_LENGTH);
  }

  // ---- the IDMAC table of dwcmshc ----

  /** DES0 flags, the 13-bit buffer size of DES1, and the address of DES2. */
  datatype Idmac = Idmac(own: bool, dic: bool, fs: bool, ld: bool, er: bool, size: nat, address: nat)

  /** The table for a list of pieces: FS marks the first, LD and ER the last, and only the last one interrupts. */
  function IdmacTable(ps: seq<Piece>): (r: seq<Idmac>)
    ensures |r| == |ps|
  {
    seq(|ps|, i requires 0 <= i < |ps| =>
      Idmac(true, i != |ps| - 1, i == 0, i == |ps| - 1, i == |ps| - 1, ps[i].length, ps[i].address))
  }

  /** What the loop writes, before the first and the last descriptor are marked. */
  function IdmacBody(ps: seq<Piece>): (r: seq<Idmac>)
    ensures |r| == |ps|
  {
    seq(|ps|, i requires 0 <= i < |ps| => Idmac(true, true, false, false, false, ps[i].length, ps[i].address))
  }

  /** The pieces that the controller transfers: from the first descriptor on while it owns them, up to LD. */
  function IdmacWalk(table: seq<Idmac>): seq<Piece> {
    if table == [] || !table[0].own then []
    else [Piece(table[0].address, table[0].size)] + if table[0].ld then [] else IdmacWalk(table[1..])
  }

  lemma {:induction false} IdmacWalkReads(ps: seq<Piece>, table: seq<Idmac>, k: nat)
    requires k < |ps| <= |table| && table[..|ps|] == IdmacTable(ps)
    ensures IdmacWalk(table[k..]) == ps[k..]
    decreases |ps| - k
  {
    assert table[k] == IdmacTable(ps)[k];
    assert ps[k..] == [ps[k]] + ps[k + 1..];
    if k < |ps| - 1 {
      assert table[k..][1..] == table[k + 1..];
      IdmacWalkReads(ps, table, k + 1);
    } else {
      assert ps[k + 1..] == [];
    }
  }

  /** Whatever lies behind the table, the controller transfers the pieces, hence the bytes of the list. */
  lemma IdmacTransfersList(es: seq<Piece>, table: seq<Idmac>)
    requires es != [] && Usable(es, TWO_32)
    requires var ps := Pieces(es, IDMAC_MAX_LENGTH); |ps| <= |table| && table[..|ps|] == IdmacTable(ps)
    ensures Addresses(IdmacWalk(table)) == Addresses(es)
    ensures forall d <- IdmacTable(Pieces(es, IDMAC_MAX_LENGTH)) :: d.own && 0 < d.size <= 0x1000 && d.address < TWO_32
  {
    var ps := Pieces(es, IDMAC_MAX_LENGTH);
    PiecesFit(es, IDMAC_MAX_LENGTH, TWO_32);
    IdmacWalkReads(ps, table, 0);
    assert table[0..] == table && ps[0..] == ps;
    SameBytes(es, IDMAC_MAX_LENGTH);
    assert forall i :: 0 <= i < |ps| ==> ps[i] in ps;
  }

  lemma PiecesStep(es: seq<Piece>, i: nat, max: Max)
    requires i < |es|
    ensures Pieces(es[i..], max) == Cut(es[i], max) + Pieces(es[i + 1..], max)
  {
    assert es[i..][0] == es[i] && es[i..][1..] == es[i + 1..];
  }

  lemma CutStep(e: Piece, max: Max)
    requires e.length > 0
    ensures var n := if e.length < max then e.length else max;
      Cut(e, max) == [Piece(e.address, n)] + Cut(Piece(e.address + n, e.length - n), max)
  {
  }

  lemma BodySnoc(ps: seq<Piece>, p: Piece)
    ensures IdmacBody(ps + [p]) == IdmacBody(ps) + [Idmac(true, true, false, false, false, p.length, p.address)]
  {
  }

  lemma BodyConcat(a: seq<Piece>, b: seq<Piece>)
    ensures IdmacBody(a + b) == IdmacBody(a) + IdmacBody(b)
  {
  }

  /** Inside an element: `out` is cut off, `rest` still to come. */
  lemma NextPiece(e: Piece, out: seq<Piece>, rest: Piece, max: Max, n: nat)
    requires Cut(e, max) == out + Cut(rest, max) && rest.length > 0 && n == if max < rest.length then max else rest.length
    ensures Cut(e, max) == (out + [Piece(rest.address, n)]) + Cut(Piece(rest.address + n, rest.length - n), max)
  {
    CutStep(rest, max);
  }

  lemma Exhausted(rest: Piece, max: Max)
    requires rest.length == 0
    ensures Cut(rest, max) == []
  {
  }

  /** Between elements: the pieces of the first `i` are `done`. */
  predicate Standing(all: seq<Piece>, done: seq<Piece>, es: seq<Piece>, i: nat, max: Max) {
    i <= |es| && all == done + Pieces(es[i..], max)
  }

  lemma NextElement(all: seq<Piece>, done: seq<Piece>, es: seq<Piece>, i: nat, max: Max)
    requires Standing(all, done, es, i, max) && i < |es|
    ensures Standing(all, done + Cut(es[i], max), es, i + 1, max) && done + Cut(es[i], max) <= all
  {
    PiecesStep(es, i, max);
  }

  lemma NothingLeft(all: seq<Piece>, done: seq<Piece>, es: seq<Piece>, max: Max)
    requires Standing(all, done, es, |es|, max)
    ensures done == all
  {
    assert es[|es|..] == [] && Pieces([], max) == [];
  }

  lemma StandingStart(es: seq<Piece>, max: Max)
    ensures Standing(Pieces(es, max), [], es, 0, max)
  {
    assert es[0..] == es;
  }

  /** The inner loop: the descriptors of one element. */
  method CutIdmac(e: Piece, table: array<Idmac>, start: nat) returns (count: nat)
    requires e.address + e.length <= TWO_32 && start + |Cut(e, IDMAC_MAX_LENGTH)| <= table.Length
    modifies table
    ensures count == start + |Cut(e, IDMAC_MAX_LENGTH)|
    ensures table[..count] == old(table[..start]) + IdmacBody(Cut(e, IDMAC_MAX_LENGTH)) && table[count..] == old(table[..])[count..]
  {
    hide Cut;
    hide IdmacBody;
    var remaining: nat, next: nat := e.length, e.address;
    ghost var out: seq<Piece> := [];
    count := start;
    assert IdmacBody([]) == [];
    while remaining > 0
      invariant count == start + |out| && next + remaining <= TWO_32
      invariant Cut(e, IDMAC_MAX_LENGTH) == out + Cut(Piece(next, remaining), IDMAC_MAX_LENGTH)
      invariant count <= table.Length
      invariant table[..count] == old(table[..start]) + IdmacBody(out) && table[count..] == old(table[..])[count..]
    {
      var length := if IDMAC_MAX_LENGTH < remaining then IDMAC_MAX_LENGTH else remaining;
      NextPiece(e, out, Piece(next, remaining), IDMAC_MAX_LENGTH, length);
      BodySnoc(out, Piece(next, length));
      ghost var before := table[..];
      table[count] := Idmac(true, true, false, false, false, length % 0x2000, Wrap32(next));
      assert table[..count + 1] == before[..count] + [table[count]];
      assert table[count + 1..] == before[count..][1..];
      out := out + [Piece(next, length)];
      remaining := remaining - length;
      next := next + length;
      count := count + 1;
    }
    Exhausted(Piece(next, remaining), IDMAC_MAX_LENGTH);
    assert Cut(e, IDMAC_MAX_LENGTH) == out;
  }

  /** MshcCreateIdmacDescriptorTable. */
  method CreateIdmacDescriptorTable(elements: seq<Piece>, table: array<Idmac>) returns (count: nat)
    requires elements != [] && Usable(elements, TWO_32) && EntryCount(elements, IDMAC_MAX_LENGTH) <= table.Length
    modifies table
    ensures count == EntryCount(elements, IDMAC_MAX_LENGTH)
    ensures table[..count] == IdmacTable(Pieces(elements, IDMAC_MAX_LENGTH))
    ensures table[count..] == old(table[count..])
  {
    hide Standing;
    hide Pieces;
    hide Cut;
    hide EntryCount;
    hide IdmacBody;
    hide IdmacTable;
    hide TotalLength;
    ghost var all := Pieces(elements, IDMAC_MAX_LENGTH);
    PiecesFit(elements, IDMAC_MAX_LENGTH, TWO_32);
    ghost var done: seq<Piece> := [];
    var i := 0;
    count := 0;
    StandingStart(elements, IDMAC_MAX_LENGTH);
    assert IdmacBody([]) == [];
    while i < |elements|
      invariant 0 <= i <= |elements| && count == |done| <= table.Length
      invariant Standing(all, done, elements, i, IDMAC_MAX_LENGTH)
      invariant table[..count] == IdmacBody(done) && table[count..] == old(table[..])[count..]
    {
      assert elements[i] in elements;
      NextElement(all, done, elements, i, IDMAC_MAX_LENGTH);
      BodyConcat(done, Cut(elements[i], IDMAC_MAX_LENGTH));
      ghost var before, was := table[..], count;
      count := CutIdmac(elements[i], table, count);
      assert before[count..] == before[was..][count - was..];
      done := done + Cut(elements[i], IDMAC_MAX_LENGTH);
      i := i + 1;
    }
    NothingLeft(all, done, elements, IDMAC_MAX_LENGTH);
    MarkEnds(table, count, all);
  }

  /** Marks the first and the last descriptor. */
  method MarkEnds(table: array<Idmac>, count: nat, ghost all: seq<Piece>)
    requires 0 < count == |all| <= table.Length && table[..count] == IdmacBody(all)
    modifies table
    ensures table[..count] == IdmacTable(all) && table[count..] == old(table[count..])
  {
    table[0] := table[0].(fs := true);
    table[count - 1] := table[count - 1].(er := true, ld := true);
    table[count - 1] := table[count - 1].(dic := false);
    MarkedIsTable(all, table[..count]);
  }

  lemma MarkedIsTable(ps: seq<Piece>, table: seq<Idmac>)
    requires ps != [] && |table| == |ps|
    requires var b := IdmacBody(ps);
      var c := b[0 := b[0].(fs := true)];
      table == c[|ps| - 1 := c[|ps| - 1].(er := true, ld := true, dic := false)]
    ensures table == IdmacTable(ps)
  {
  }

  // ---- the ADMA2 table of dwcsdhc ----

  const ATTRIBUTE_VALID: nat := 1
  const ATTRIBUTE_END: nat := 2
  const ACTION_TRAN: nat := 2

  /** The first word of an entry: three attribute bits, the action in bits 4 and 5, the length in the upper half. */
  function Header(length: nat, end: bool): (r: u32)
    requires length < 0x1_0000
  {
    ATTRIBUTE_VALID + (if end then ATTRIBUTE_END else 0) + ACTION_TRAN * 16 + length * 0x1_0000
  }

  /** The words of an entry: header and address, in one word or in two. */
  function Entry(p: Piece, wide: bool, end: bool): (r: seq<u32>)
    requires p.length < 0x1_0000
    ensures |r| == Width(wide)
  {
    [Header(p.length, end), Wrap32(p.address)] + if wide then [Wrap32(p.address / TWO_32)] else []
  }

  function Width(wide: bool): nat { if wide then 3 else 2 }

  function Words(n: nat, wide: bool): nat { if wide then 3 * n else 2 * n }

  predicate Short(ps: seq<Piece>) { forall p <- ps :: p.length < 0x1_0000 }

  /** The entries of a list of pieces without an end. */
  function AdmaBody(ps: seq<Piece>, wide: bool): (r: seq<u32>)
    requires Short(ps)
    ensures |r| == Words(|ps|, wide)
  {
    if ps == [] then []
    else
      var n := |ps| - 1;
      AdmaBody(ps[..n], wide) + Entry(ps[n], wide, false)
  }

  /** The table: END is set on the last entry, and on no other. */
  function AdmaTable(ps: seq<Piece>, wide: bool): (r: seq<u32>)
    requires Short(ps)
    ensures |r| == Words(|ps|, wide)
  {
    if ps == [] then [] else AdmaBody(ps[..|ps| - 1], wide) + Entry(ps[|ps| - 1], wide, true)
  }

  /** Valid is bit 0, END bit 1, and action 2 in bits 4 and 5 transfers. */
  predicate IsTransfer(header: u32) { header % 2 == 1 && (header / 16) % 4 == 2 }

  predicate IsEnd(header: u32) { (header / 2) % 2 == 1 }

  /** The pieces that the controller transfers: valid transfer entries up to and including one with END. */
  function AdmaWalk(words: seq<u32>, wide: bool): seq<Piece>
    decreases |words|
  {
    if |words| < Width(wide) || !IsTransfer(words[0]) then []
    else
      var address := if wide then words[1] + TWO_32 * words[2] else words[1];
      [Piece(address, words[0] / 0x1_0000)] + if IsEnd(words[0]) then [] else AdmaWalk(words[Width(wide)..], wide)
  }

  lemma HeaderReads(length: nat, end: bool)
    requires length < 0x1_0000
    ensures var h := Header(length, end); IsTransfer(h) && (IsEnd(h) <==> end) && h / 0x1_0000 == length
    ensures Header(length, end) / 4 % 4 == 0 && Header(length, end) / 64 % 0x400 == 0
  {
    var h, e := Header(length, end), if end then 1 else 0;
    assert h == 2 * (16 + e + 0x8000 * length) + 1 && 16 + e + 0x8000 * length == 2 * (8 + 0x4000 * length) + e;
    assert h == 16 * (2 + 0x1000 * length) + (1 + 2 * e) && 2 + 0x1000 * length == 4 * (0x400 * length) + 2;
    assert h == 0x1_0000 * length + (33 + 2 * e);
    assert h == 4 * (8 + 0x4000 * length) + (1 + 2 * e) && h == 64 * (0x400 * length) + (33 + 2 * e);
  }

  lemma AddressReads(address: nat, wide: bool)
    requires if wide then address < TWO_32 * TWO_32 else address < TWO_32
    ensures wide ==> Wrap32(address) + TWO_32 * Wrap32(address / TWO_32) == address
    ensures !wide ==> Wrap32(address) == address
  {
  }

  predicate Reachable(ps: seq<Piece>, wide: bool) {
    forall p <- ps :: p.address < if wide then TWO_32 * TWO_32 else TWO_32
  }

  lemma EntryWalk(p: Piece, wide: bool, end: bool, rest: seq<u32>)
    requires p.length < 0x1_0000 && p.address < if wide then TWO_32 * TWO_32 else TWO_32
    ensures AdmaWalk(Entry(p, wide, end) + rest, wide) == [p] + if end then [] else AdmaWalk(rest, wide)
  {
    hide IsTransfer;
    hide IsEnd;
    hide Header;
    HeaderReads(p.length, end);
    AddressReads(p.address, wide);
    var words := Entry(p, wide, end) + rest;
    assert words[Width(wide)..] == rest;
    assert words[0] == Header(p.length, end) && words[1] == Wrap32(p.address);
    assert wide ==> words[2] == Wrap32(p.address / TWO_32);
  }

  lemma {:induction false} BodyWalk(ps: seq<Piece>, wide: bool, rest: seq<u32>)
    requires Short(ps) && Reachable(ps, wide)
    ensures AdmaWalk(AdmaBody(ps, wide) + rest, wide) == ps + AdmaWalk(rest, wide)
    decreases |ps|
  {
    hide Entry;
    hide AdmaWalk;
    if ps == [] {
      assert AdmaBody(ps, wide) + rest == rest && ps + AdmaWalk(rest, wide) == AdmaWalk(rest, wide);
    } else {
      var n := |ps| - 1;
      var e := Entry(ps[n], wide, false);
      assert ps[n] in ps;
      BodyWalk(ps[..n], wide, e + rest);
      EntryWalk(ps[n], wide, false, rest);
      assert AdmaBody(ps, wide) + rest == AdmaBody(ps[..n], wide) + (e + rest);
      assert ps == ps[..n] + [ps[n]];
    }
  }

  /** Whatever lies behind the table, the controller transfers exactly the bytes of the list, in order. */
  lemma AdmaTransfersList(es: seq<Piece>, wide: bool, words: seq<u32>)
    requires es != [] && Usable(es, if wide then TWO_32 * TWO_32 else TWO_32)
    requires Short(Pieces(es, ADMA2_MAX_LENGTH)) && AdmaTable(Pieces(es, ADMA2_MAX_LENGTH), wide) <= words
    ensures Addresses(AdmaWalk(words, wide)) == Addresses(es)
  {
    hide AdmaBody;
    hide Entry;
    hide AdmaWalk;
    hide Pieces;
    hide Addresses;
    hide EntryCount;
    hide TotalLength;
    var ps := Pieces(es, ADMA2_MAX_LENGTH);
    PiecesFit(es, ADMA2_MAX_LENGTH, if wide then TWO_32 * TWO_32 else TWO_32);
    SameBytes(es, ADMA2_MAX_LENGTH);
    var n := |ps| - 1;
    var e, rest := Entry(ps[n], wide, true), words[|AdmaTable(ps, wide)|..];
    assert ps[n] in ps;
    EntryWalk(ps[n], wide, true, rest);
    BodyWalk(ps[..n], wide, e + rest);
    assert words == AdmaBody(ps[..n], wide) + (e + rest);
    assert ps == ps[..n] + ([ps[n]] + []);
  }

  /** The two controllers transfer the same bytes for the same list. */
  lemma TablesAgree(es: seq<Piece>, idmac: seq<Idmac>, adma: seq<u32>)
    requires es != [] && Usable(es, TWO_32)
    requires var ps := Pieces(es, IDMAC_MAX_LENGTH); |ps| <= |idmac| && idmac[..|ps|] == IdmacTable(ps)
    requires Short(Pieces(es, ADMA2_MAX_LENGTH)) && AdmaTable(Pieces(es, ADMA2_MAX_LENGTH), false) <= adma
    ensures Addresses(IdmacWalk(idmac)) == Addresses(AdmaWalk(adma, false))
  {
    IdmacTransfersList(es, idmac);
    AdmaTransfersList(es, false, adma);
  }

  lemma AdmaConcat(a: seq<Piece>, b: seq<Piece>, wide: bool)
    requires Short(a) && Short(b)
    ensures Short(a + b) && AdmaBody(a + b, wide) == AdmaBody(a, wide) + AdmaBody(b, wide)
    decreases |b|
  {
    hide Entry;
    if b == [] {
      assert a + b == a;
    } else {
      var n := |b| - 1;
      assert (a + b)[..|a| + n] == a + b[..n];
      AdmaConcat(a, b[..n], wide);
    }
  }

  lemma BodyWords(ps: seq<Piece>, p: Piece, wide: bool)
    requires Short(ps) && p.length < 0x1_0000
    ensures Short(ps + [p]) && AdmaBody(ps + [p], wide) == AdmaBody(ps, wide) + Entry(p, wide, false)
  {
    assert (ps + [p])[..|ps|] == ps;
  }

  /** One entry at word `at` of the buffer: header, then the address in one word or two. */
  method WriteEntry(buffer: array<u32>, at: nat, p: Piece, wide: bool)
    requires p.length < 0x1_0000 && at + Width(wide) <= buffer.Length
    modifies buffer
    ensures buffer[..at] == old(buffer[..at]) && buffer[at..at + Width(wide)] == Entry(p, wide, false)
    ensures buffer[at + Width(wide)..] == old(buffer[at + Width(wide)..])
  {
    hide Wrap32;
    buffer[at] := ATTRIBUTE_VALID + ACTION_TRAN * 16 + p.length * 0x1_0000;
    buffer[at + 1] := Wrap32(p.address);
    if wide { buffer[at + 2] := Wrap32(p.address / TWO_32); }
  }

  lemma ShortPieces(es: seq<Piece>, limit: nat)
    requires Usable(es, limit)
    ensures Short(Pieces(es, ADMA2_MAX_LENGTH)) && |Pieces(es, ADMA2_MAX_LENGTH)| == EntryCount(es, ADMA2_MAX_LENGTH)
    ensures es != [] ==> Pieces(es, ADMA2_MAX_LENGTH) != []
  {
    PiecesFit(es, ADMA2_MAX_LENGTH, limit);
  }

  /** The inner loop: the entries of one element, and its length added to the total. */
  method CutAdma(e: Piece, wide: bool, buffer: array<u32>, start: nat, sum: u32) returns (at: nat, total: u32)
    requires start + Words(|Cut(e, ADMA2_MAX_LENGTH)|, wide) <= buffer.Length
    modifies buffer
    ensures Short(Cut(e, ADMA2_MAX_LENGTH)) && at == start + Words(|Cut(e, ADMA2_MAX_LENGTH)|, wide)
    ensures buffer[..at] == old(buffer[..start]) + AdmaBody(Cut(e, ADMA2_MAX_LENGTH), wide) && buffer[at..] == old(buffer[..])[at..]
    ensures total == Wrap32(sum + e.length)
  {
    hide Cut;
    hide AdmaBody;
    hide Entry;
    hide Wrap32;
    hide Short;
    var remaining: nat, next: nat := e.length, e.address;
    ghost var out: seq<Piece> := [];
    at, total := start, sum;
    AdmaStart(wide, sum);
    while remaining > 0
      invariant at == start + Words(|out|, wide) <= buffer.Length && remaining <= e.length
      invariant Cut(e, ADMA2_MAX_LENGTH) == out + Cut(Piece(next, remaining), ADMA2_MAX_LENGTH)
      invariant Short(out) && buffer[..at] == old(buffer[..start]) + AdmaBody(out, wide) && buffer[at..] == old(buffer[..])[at..]
      invariant total == Wrap32(sum + (e.length - remaining))
    {
      var length := if ADMA2_MAX_LENGTH < remaining then ADMA2_MAX_LENGTH else remaining;
      var p := Piece(next, length);
      NextPiece(e, out, Piece(next, remaining), ADMA2_MAX_LENGTH, length);
      BodyWords(out, p, wide);
      ghost var before := buffer[..];
      WriteEntry(buffer, at, p, wide);
      assert buffer[..at + Width(wide)] == before[..at] + Entry(p, wide, false);
      assert buffer[at + Width(wide)..] == before[at..][Width(wide)..];
      WrapAdds(sum + (e.length - remaining), length);
      total := Wrap32(total + length);
      out := out + [p];
      remaining := remaining - length;
      next := next + length;
      at := at + Width(wide);
    }
    Exhausted(Piece(next, remaining), ADMA2_MAX_LENGTH);
    assert Cut(e, ADMA2_MAX_LENGTH) == out;
  }

  lemma AdmaStart(wide: bool, sum: u32)
    ensures Short([]) && AdmaBody([], wide) == [] && Wrap32(sum) == sum
  {
  }

  /** SdhcCreateAdmaDescriptorTable; the total is a 32-bit sum. */
  method CreateAdmaDescriptorTable(elements: seq<Piece>, wide: bool, buffer: array<u32>) returns (total: u32)
    requires elements != [] && Usable(elements, if wide then TWO_32 * TWO_32 else TWO_32)
    requires Words(EntryCount(elements, ADMA2_MAX_LENGTH), wide) <= buffer.Length
    modifies buffer
    ensures Short(Pieces(elements, ADMA2_MAX_LENGTH))
    ensures var n := Words(EntryCount(elements, ADMA2_MAX_LENGTH), wide);
      buffer[..n] == AdmaTable(Pieces(elements, ADMA2_MAX_LENGTH), wide) && buffer[n..] == old(buffer[n..])
    ensures total == Wrap32(TotalLength(elements))
  {
    hide Usable;
    hide Standing;
    hide Pieces;
    hide Cut;
    hide EntryCount;
    hide AdmaBody;
    hide Entry;
    hide Wrap32;
    hide Short;
    hide TotalLength;
    ghost var all := Pieces(elements, ADMA2_MAX_LENGTH);
    ShortPieces(elements, if wide then TWO_32 * TWO_32 else TWO_32);
    ghost var done: seq<Piece> := [];
    var i, at := 0, 0;
    total := 0;
    StandingStart(elements, ADMA2_MAX_LENGTH);
    AdmaStart(wide, 0);
    LengthOf(elements, 0);
    while i < |elements|
      invariant 0 <= i <= |elements| && at == Words(|done|, wide) <= buffer.Length
      invariant Standing(all, done, elements, i, ADMA2_MAX_LENGTH)
      invariant Short(done) && buffer[..at] == AdmaBody(done, wide) && buffer[at..] == old(buffer[..])[at..]
      invariant total == Wrap32(TotalLength(elements[..i]))
    {
      NextElement(all, done, elements, i, ADMA2_MAX_LENGTH);
      ghost var before, was, c := buffer[..], at, Cut(elements[i], ADMA2_MAX_LENGTH);
      LengthOf(elements, i + 1);
      WrapAdds(TotalLength(elements[..i]), elements[i].length);
      at, total := CutAdma(elements[i], wide, buffer, at, total);
      AdmaConcat(done, c, wide);
      assert before[at..] == before[was..][at - was..];
      done := done + c;
      i := i + 1;
    }
    NothingLeft(all, done, elements, ADMA2_MAX_LENGTH);
    assert elements[..i] == elements;
    MarkEnd(buffer, at, all, wide);
  }

  lemma LengthOf(es: seq<Piece>, i: nat)
    requires i <= |es|
    ensures TotalLength([]) == 0 && es[..0] == []
    ensures i > 0 ==> TotalLength(es[..i]) == TotalLength(es[..i - 1]) + es[i - 1].length
  {
    if i > 0 {
      AddressesConcat(es[..i - 1], [es[i - 1]]);
      assert es[..i] == es[..i - 1] + [es[i - 1]] && [es[i - 1]][1..] == [];
      AddressCount(es[..i]);
      AddressCount(es[..i - 1]);
      AddressCount([es[i - 1]]);
    }
  }

  lemma WrapAdds(a: nat, b: nat)
    ensures Wrap32(Wrap32(a) + b) == Wrap32(a + b)
  {
  }

  /** Sets the END bit in the last entry. */
  method MarkEnd(buffer: array<u32>, at: nat, ghost all: seq<Piece>, wide: bool)
    requires all != [] && Short(all) && at == Words(|all|, wide) <= buffer.Length && buffer[..at] == AdmaBody(all, wide)
    modifies buffer
    ensures buffer[..at] == AdmaTable(all, wide) && buffer[at..] == old(buffer[at..])
  {
    hide Wrap32;
    ghost var n, body := |all| - 1, buffer[..at];
    var last := at - Width(wide);
    assert all[n] in all && body[last..] == Entry(all[n], wide, false);
    assert buffer[last] == body[last..][0] == Header(all[n].length, false);
    buffer[last] := buffer[last] + ATTRIBUTE_END;
    assert buffer[last..at] == Entry(all[n], wide, true);
    assert buffer[..at] == buffer[..last] + buffer[last..at];
  }
}