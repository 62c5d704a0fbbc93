/** The interrupt-driven transfers of the RK3x I2C controller: one message at a time goes through the
    32-byte buffers of the controller, and the interrupt handlers move the state machine. */
module I2cTransfer {
  import opened Machine32
  import opened MdlChain
  import opened I2cChunks

  datatype State = Idle | Start | Reading | Writing | Stop

  datatype Mode = Tx | RegisterTx | Rx

  /** REG_CON; the tuning bits stay as the clock setup left them. */
  datatype Con = Con(en: bool, mode: Mode, start: bool, stop: bool, lastAck: bool, actAck: bool)

  const TUNING_ONLY: Con := Con(false, Tx, false, false, false, false)

  /** REG_IEN: which interrupts are enabled. */
  datatype Enabled = NoInterrupt | StartOnly | WriteAndNak | ReadAndNak | StopOnly

  /** REG_IPD as it is read on entry. */
  datatype Pending = Pending(btf: bool, brf: bool, mbtf: bool, mbrf: bool, start: bool, stop: bool, nak: bool)

  predicate AnythingLeft(ipd: Pending) { ipd.mbtf || ipd.mbrf || ipd.start || ipd.stop }

  /** The address byte on the wire: seven bits, and whether the master reads. */
  function Addressed(target: nat, fromDevice: bool): byte { (target % 128) * 2 + (if fromDevice then 1 else 0) }

  /** The cast of the target address to a byte. */
  function Narrow(target: nat): byte { target % 256 }

  lemma NarrowKeepsAddress(target: nat, fromDevice: bool)
    ensures Addressed(Narrow(target), fromDevice) == Addressed(target, fromDevice)
  {
    var q, r := target / 256, target % 256;
    assert target == 256 * q + r;
    if r < 128 {
      assert target == 128 * (2 * q) + r;
    } else {
      assert target == 128 * (2 * q + 1) + (r - 128);
    }
  }

  /** The registers of the controller that the driver writes. */
  datatype Registers = Registers(con: Con, ien: Enabled, mrxaddr: byte, txBuffer: Buffer, mtxcnt: nat, mrxcnt: nat)

  /** The history of the transfer that was started last: its buffer, its length, its target and what the buffer held;
      the chunks given to the controller to transmit, those received, the bytes that it was told to receive,
      and the completions signalled. */
  datatype Log = Log(request: Mdl, total: nat, target: nat, initial: seq<byte>, sent: seq<seq<byte>>, received: seq<seq<byte>>,
                     clocked: nat, signals: nat)

  /** `done` bytes were sent and, if no access to the buffer failed, they are the address and the first
      bytes of the buffer, which has not changed. */
  predicate SentPrefix(l: Log, address: byte, done: nat, status: NtStatus, now: seq<byte>) {
    && now == l.initial && Chunked(l.sent, l.total + 1, done)
    && (status == Success ==> done <= |l.initial| + 1 && Concat(l.sent) == ([Addressed(address, false)] + l.initial)[..done])
  }

  /** The first bytes of the buffer are what was received, in order, and the rest is untouched. */
  predicate ReceivedPrefix(l: Log, done: nat, now: seq<byte>) {
    && Chunked(l.received, l.total, done) && done <= |l.initial|
    && now == Concat(l.received) + l.initial[done..]
  }

  /** The whole message went over the bus. */
  predicate Complete(l: Log, mode: Mode, address: byte, now: seq<byte>) {
    if mode == Tx then SentPrefix(l, address, l.total + 1, Success, now) else ReceivedPrefix(l, l.total, now)
  }

  /** What a write puts on the wire: the address byte, then the buffer. */
  function Wire(l: Log, address: byte): seq<byte> { [Addressed(address, false)] + l.initial }

  /** Part of the wire stream; after a failed access to the buffer nothing is claimed. */
  predicate IsWire(l: Log, address: byte, from: nat, bytes: seq<byte>, status: NtStatus) {
    status == Success ==> from + |bytes| <= |Wire(l, address)| && bytes == Wire(l, address)[from..from + |bytes|]
  }

  lemma WireSnoc(l: Log, address: byte, from: nat, bytes: seq<byte>, status: NtStatus, b: byte, after: NtStatus)
    requires IsWire(l, address, from, bytes, status) && (after == Success ==> status == Success)
    requires after == Success ==> from + |bytes| < |Wire(l, address)| && b == Wire(l, address)[from + |bytes|]
    ensures IsWire(l, address, from, bytes + [b], after)
  {
  }

  lemma WireConcat(l: Log, address: byte, from: nat, bytes: seq<byte>, status: NtStatus, more: seq<byte>, after: NtStatus)
    requires IsWire(l, address, from, bytes, status) && IsWire(l, address, from + |bytes|, more, after)
    requires after == Success ==> status == Success
    ensures IsWire(l, address, from, bytes + more, after)
  {
  }

  lemma WireTail(l: Log, address: byte, from: nat, bytes: seq<byte>, status: NtStatus)
    requires IsWire(l, address, from, bytes, status)
    ensures IsWire(l, address, from + |bytes|, [], status)
  {
  }

  lemma PrefixStarts(l: Log, address: byte, done: nat, status: NtStatus, now: seq<byte>)
    requires SentPrefix(l, address, done, status, now)
    ensures IsWire(l, address, done, [], status) && now == l.initial
  {
  }

  lemma HeldNothing(words: Buffer)
    ensures Held(words, 0) == []
  {
  }

  lemma SendChunk(l: Log, address: byte, done: nat, status: NtStatus, now: seq<byte>, c: seq<byte>, after: NtStatus)
    requires SentPrefix(l, address, done, status, now) && done < l.total + 1 && (after == Success ==> status == Success)
    requires |c| == AtMostChunk(l.total + 1 - done) && IsWire(l, address, done, c, after)
    ensures SentPrefix(l.(sent := l.sent + [c]), address, done + |c|, after, now)
  {
    hide Chunked;
    hide Concat;
    ChunkedSnoc(l.sent, l.total + 1, done, c);
    ConcatSnoc(l.sent, c);
    var wire := Wire(l, address);
    if after == Success { assert wire[..done + |c|] == wire[..done] + wire[done..done + |c|]; }
  }

  lemma NothingYet(l: Log, address: byte, now: seq<byte>)
    requires l.sent == [] && l.received == [] && now == l.initial
    ensures SentPrefix(l, address, 0, Success, now) && ReceivedPrefix(l, 0, now)
  {
  }

  /** Unless the transfer is done, the chunks sent were all full, so the fill is past the address byte. */
  lemma SentSome(l: Log, address: byte, done: nat, status: NtStatus, now: seq<byte>)
    requires SentPrefix(l, address, done, status, now) && l.sent != [] && done <= l.total
    ensures done >= CHUNK
  {
  }

  lemma ReceiveChunk(l: Log, done: nat, now: seq<byte>, c: seq<byte>, after: seq<byte>)
    requires ReceivedPrefix(l, done, now) && done < l.total
    requires |c| == AtMostChunk(l.total - done) && done + |c| <= |l.initial|
    requires after == now[..done] + c + now[done + |c|..]
    ensures ReceivedPrefix(l.(received := l.received + [c]), done + |c|, after)
  {
    ChunkedSnoc(l.received, l.total, done, c);
    ConcatSnoc(l.received, c);
    assert now[..done] == Concat(l.received);
    assert now[done + |c|..] == l.initial[done + |c|..];
  }

  /** `now` is `before` with the first `n` bytes of the receive buffer at `at`, if no access failed. */
  predicate Filled(before: seq<byte>, at: nat, rx: Buffer, n: nat, now: seq<byte>, status: NtStatus) {
    && n <= CHUNK
    && (status == Success ==> at + n <= |before| && now == before[..at] + Held(rx, n) + before[at + n..])
  }

  lemma FilledFailed(before: seq<byte>, at: nat, rx: Buffer, n: nat, now: seq<byte>, status: NtStatus)
    requires n <= CHUNK && status != Success
    ensures Filled(before, at, rx, n, now, status)
  {
  }

  lemma FilledNone(before: seq<byte>, at: nat, rx: Buffer, status: NtStatus)
    requires status == Success ==> at <= |before|
    ensures Filled(before, at, rx, 0, before, status)
  {
  }

  lemma FilledMore(before: seq<byte>, at: nat, rx: Buffer, n: nat, now: seq<byte>, status: NtStatus)
    requires n < CHUNK && Filled(before, at, rx, n, now, status) && at + n < |now|
    ensures Filled(before, at, rx, n + 1, now[at + n := rx[n / 4][n % 4]], status)
  {
    if status == Success {
      assert Held(rx, n + 1) == Held(rx, n) + [rx[n / 4][n % 4]];
      assert |now| == |before|;
    }
  }

  lemma PrefixLength(l: Log, done: nat, now: seq<byte>)
    requires ReceivedPrefix(l, done, now)
    ensures done <= |now| == |l.initial|
  {
  }

  lemma ReceiveStored(l: Log, done: nat, before: seq<byte>, rx: Buffer, len: nat, now: seq<byte>)
    requires ReceivedPrefix(l, done, before) && Filled(before, done, rx, len, now, Success) && done <= l.total
    requires len == AtMostChunk(l.total - done)
    ensures ReceivedPrefix(if len > 0 then l.(received := l.received + [Held(rx, len)]) else l, done + len, now)
  {
    if len > 0 {
      ReceiveChunk(l, done, before, Held(rx, len), now);
    } else {
      assert Held(rx, 0) == [] && now == before;
    }
  }

  lemma SignalsDoNotMatter(l: Log, signals: nat, mode: Mode, address: byte, now: seq<byte>)
    ensures Complete(l.(signals := signals), mode, address, now) == Complete(l, mode, address, now)
  {
  }

  lemma ClockedDoesNotMatter(l: Log, clocked: nat, done: nat, now: seq<byte>)
    ensures ReceivedPrefix(l.(clocked := clocked), done, now) == ReceivedPrefix(l, done, now)
  {
  }

  /** The next chunk to read is set up: as long as can be, and not acknowledged at its end if and only if
      it is the final one. */
  predicate ReadSetUp(r: Registers, processed: nat, length: nat) {
    && processed <= length && r.mrxcnt == AtMostChunk(length - processed)
    && (r.con.lastAck <==> processed + r.mrxcnt == length)
    && r.con.mode == (if processed == 0 then RegisterTx else Rx)
  }

  function AtMostChunk(n: nat): (r: nat)
    ensures r <= CHUNK && r <= n
  {
    if n > CHUNK then CHUNK else n
  }

  // ---- what a read clocks in ----

  /** Where `processed` stands after a chunk of `len` bytes from `at` on: behind it, or behind the first byte
      that cannot be stored. */
  function StoredTo(m: Mdl, at: nat, len: nat): (r: nat)
    ensures at <= r <= at + len && (len > 0 ==> r > at)
    decreases len
  {
    if len == 0 then at else if !MappedAt(m, at) then at + 1 else StoredTo(m, at + 1, len - 1)
  }

  /** The bytes that a read of `total` bytes still tells the controller to receive. */
  function Clock(m: Mdl, total: nat, at: nat): nat
    decreases total - at
  {
    if at >= total then 0
    else AtMostChunk(total - at) + Clock(m, total, StoredTo(m, at, AtMostChunk(total - at)))
  }

  lemma ClockStep(m: Mdl, total: nat, at: nat)
    ensures Clock(m, total, at) == if at >= total then 0
      else AtMostChunk(total - at) + Clock(m, total, StoredTo(m, at, AtMostChunk(total - at)))
  {
  }

  /** The byte is the last one of its chunk. */
  predicate EndsChunk(j: nat, total: nat) { (j + 1) % CHUNK == 0 || j == total - 1 }

  /** Only last bytes of chunks cannot be stored. */
  predicate FailsAtEnds(m: Mdl, total: nat, from: nat) {
    forall j: nat :: from <= j < total && !MappedAt(m, j) ==> EndsChunk(j, total)
  }

  /** All but the last byte can be stored. */
  predicate FailsLast(m: Mdl, at: nat, len: nat) {
    forall j: nat :: at <= j < at + len - 1 ==> MappedAt(m, j)
  }

  lemma {:induction false} StoredToEnd(m: Mdl, at: nat, len: nat)
    ensures StoredTo(m, at, len) == at + len <==> FailsLast(m, at, len)
    decreases len
  {
    hide MappedAt;
    if len > 0 {
      if MappedAt(m, at) {
        StoredToEnd(m, at + 1, len - 1);
        assert FailsLast(m, at, len) <==> FailsLast(m, at + 1, len - 1);
      }
    }
  }

  lemma {:induction false} ClockCovers(m: Mdl, total: nat, at: nat)
    requires at <= total
    ensures Clock(m, total, at) >= total - at
    decreases total - at
  {
    ClockStep(m, total, at);
    if at < total { ClockCovers(m, total, StoredTo(m, at, AtMostChunk(total - at))); }
  }

  /** The controller receives exactly what was asked for if and only if no store fails before the last byte
      of its chunk; otherwise it receives more. */
  lemma {:induction false} ClockIsExact(m: Mdl, total: nat, at: nat)
    requires at <= total && at % CHUNK == 0
    ensures Clock(m, total, at) == total - at <==> FailsAtEnds(m, total, at)
    decreases total - at
  {
    hide Clock;
    hide StoredTo;
    hide FailsLast;
    hide FailsAtEnds;
    hide MappedAt;
    ClockStep(m, total, at);
    if at < total {
      var len := AtMostChunk(total - at);
      var next := StoredTo(m, at, len);
      StoredToEnd(m, at, len);
      ClockCovers(m, total, next);
      FailuresSplit(m, total, at);
      if next == at + len {
        if next < total { ClockIsExact(m, total, next); } else { NoFailures(m, total); ClockStep(m, total, total); }
      }
    } else {
      NoFailures(m, total);
    }
  }

  lemma NoFailures(m: Mdl, total: nat)
    ensures FailsAtEnds(m, total, total)
  {
  }

  lemma FailuresSplit(m: Mdl, total: nat, at: nat)
    requires at % CHUNK == 0 && at < total
    ensures var len := AtMostChunk(total - at);
      FailsAtEnds(m, total, at) <==> FailsLast(m, at, len) && FailsAtEnds(m, total, at + len)
  {
    hide MappedAt;
    hide EndsChunk;
    var len := AtMostChunk(total - at);
    forall j: nat | at <= j < at + len
      ensures EndsChunk(j, total) <==> j == at + len - 1
    {
      ChunkEnds(at, j, total);
    }
    if FailsAtEnds(m, total, at) {
      assert FailsLast(m, at, len);
    }
  }

  /** The last byte of a chunk is the only one that ends it. */
  lemma ChunkEnds(at: nat, j: nat, total: nat)
    requires at % CHUNK == 0 && at < total && at <= j < at + AtMostChunk(total - at)
    ensures EndsChunk(j, total) <==> j == at + AtMostChunk(total - at) - 1
  {
    if j + 1 - at < CHUNK { assert (j + 1) % CHUNK == j + 1 - at; }
  }

  /** Two bytes over two pieces of one, the first of which cannot be mapped: three are received. */
  lemma UnmappedPieceClocksMore(first: array<byte>, second: array<byte>)
    requires first.Length == second.Length == 1
    ensures Clock(Mdl(first, false, Mdl(second, true, Null)), 2, 0) == 3
  {
    var m := Mdl(first, false, Mdl(second, true, Null));
    assert StoredTo(m, 0, 2) == 1 && StoredTo(m, 1, 1) == 2;
    assert Clock(m, 2, 2) == 0 && Clock(m, 2, 1) == 1;
  }

  class Controller {
    var state: State
    var mode: Mode
    var address: byte
    var chain: Mdl
    var length: nat                  // currentDescriptor.TransferLength
    var processed: nat
    var isLastMsg: bool
    var transactionStatus: NtStatus
    var regs: Registers
    ghost var log: Log

    // ---- what holds at all times ----

    ghost predicate Underway()
      reads this
    {
      && chain == log.request && length == log.total && processed <= length && !isLastMsg && Disjoint(log.request)
      && regs.con.en && regs.con.actAck && !regs.con.stop
      && (mode == RegisterTx ==> regs.mrxaddr == Addressed(address, true)) && mode != Rx
    }

    ghost predicate Started(now: seq<byte>)
      reads this
    {
      && Underway() && processed == 0 && transactionStatus == Success
      && log.sent == [] && log.received == [] && log.clocked == 0 && now == log.initial
      && regs.con == Con(true, mode, true, false, false, true) && regs.ien == StartOnly
    }

    /** In WRITE the transmit buffer holds the chunk sent last. */
    ghost predicate InWrite(now: seq<byte>)
      reads this
    {
      && Underway() && mode == Tx && regs.con.mode == Tx && !regs.con.start && regs.ien == WriteAndNak && SentPrefix(log, address, processed + 1, transactionStatus, now)
      && log.sent != [] && regs.mtxcnt <= CHUNK && Held(regs.txBuffer, regs.mtxcnt) == log.sent[|log.sent| - 1]
    }

    ghost predicate InRead(now: seq<byte>)
      reads this
    {
      && Underway() && mode == RegisterTx && ReadSetUp(regs, processed, length) && !regs.con.start && regs.ien == ReadAndNak
      && log.clocked + Clock(log.request, log.total, processed) == regs.mrxcnt + Clock(log.request, log.total, 0)
      && (transactionStatus == Success ==> ReceivedPrefix(log, processed, now))
    }

    ghost predicate Valid()
      reads this, Buffers(log.request)
    {
      var now := Bytes(log.request);
      && (state.Start? ==> Started(now))
      && (state.Writing? ==> InWrite(now))
      && (state.Reading? ==> InRead(now))
      && (state.Stop? ==> isLastMsg && regs.con.stop && regs.con.en && regs.ien == StopOnly)
      && address == Narrow(log.target)
      && (isLastMsg && mode == RegisterTx ==> log.clocked == Clock(log.request, log.total, 0))
      && log.signals <= 1 && (!state.Idle? ==> log.signals == 0)
      && ((state.Stop? || log.signals == 1) && transactionStatus == Success ==> Complete(log, mode, address, now))
    }

    /** A transfer that was signalled as successful was carried out in full: a write put the address byte
        and then the payload on the wire, a read filled the buffer with what was received, each in as few
        chunks as it takes. */
    lemma SuccessMeansComplete()
      requires Valid() && log.signals == 1 && transactionStatus == Success
      ensures log.total <= |log.initial|
      ensures mode == Tx ==> Concat(log.sent) == [2 * (log.target % 128)] + log.initial[..log.total]
      ensures mode == Tx ==> |log.sent| == (log.total + 1 + CHUNK - 1) / CHUNK && forall c <- log.sent :: 1 <= |c| <= CHUNK
      ensures mode != Tx ==> Bytes(log.request) == Concat(log.received) + log.initial[log.total..]
      ensures mode != Tx ==> |log.received| == (log.total + CHUNK - 1) / CHUNK && |Concat(log.received)| == log.total
    {
      NarrowKeepsAddress(log.target, false);
    }

    /** The address byte, bit by bit: a write starts with the target's seven bits and the write bit, and a read
        has the controller send them with the read bit. */
    lemma AddressByte()
      requires Valid()
      ensures (state.Writing? || log.signals == 1) && mode == Tx && transactionStatus == Success ==>
        Concat(log.sent) != [] && Concat(log.sent)[0] % 2 == 0 && Concat(log.sent)[0] / 2 == log.target % 128
      ensures (state.Start? || state.Reading?) && mode == RegisterTx ==>
        regs.mrxaddr % 2 == 1 && regs.mrxaddr / 2 == log.target % 128
    {
      NarrowKeepsAddress(log.target, false);
      NarrowKeepsAddress(log.target, true);
    }

    /** A read that was not broken off has told the controller to receive what was asked for if and only if
        no byte could not be stored before the last one of its chunk, and more otherwise. */
    lemma ReadClocks()
      requires Valid() && isLastMsg && mode == RegisterTx
      ensures log.clocked >= log.total
      ensures log.clocked == log.total <==> FailsAtEnds(log.request, log.total, 0)
    {
      ClockCovers(log.request, log.total, 0);
      ClockIsExact(log.request, log.total, 0);
    }

    constructor ()
      ensures Valid() && state == Idle
    {
      state, mode, address, chain, length, processed := Idle, Tx, 0, Null, 0, 0;
      isLastMsg, transactionStatus := false, Success;
      regs := Registers(TUNING_ONLY, NoInterrupt, 0, [ZERO, ZERO, ZERO, ZERO, ZERO, ZERO, ZERO, ZERO], 0, 0);
      log := Log(Null, 0, 0, [], [], [], 0, 0);
    }

    /** The registers and the state are not part of any transfer buffer. */
    lemma Apart(m: Mdl)
      ensures forall b :: b in Buffers(m) ==> (b as object) != this
    {
    }

    // ---- starting and ending ----

    /** The message that i2c_xfer_single sets up, and the START condition of rk3x_i2c_start. */
    method SetUp(fromDevice: bool, target: nat, buffer: Mdl, transferLength: nat)
      modifies this`mode, this`length, this`chain, this`isLastMsg, this`address, this`state, this`processed,
               this`transactionStatus, this`regs
      ensures mode == (if fromDevice then RegisterTx else Tx) && length == transferLength && chain == buffer
      ensures !isLastMsg && address == Narrow(target) && state == Start && processed == 0 && transactionStatus == Success
      ensures regs.con == Con(true, mode, true, false, false, true) && regs.ien == StartOnly
      ensures fromDevice ==> regs.mrxaddr == Addressed(address, true)
    {
      hide Addressed;
      hide Narrow;
      NarrowKeepsAddress(target, true);
      mode := if fromDevice then RegisterTx else Tx;
      length, chain := transferLength, buffer;
      isLastMsg, address, state, processed := false, Narrow(target), Start, 0;
      transactionStatus := Success;
      regs := regs.(mrxaddr := if fromDevice then Addressed(target, true) else regs.mrxaddr,
                    ien := StartOnly, con := Con(true, mode, true, false, false, true));
    }

    /** The first half of i2c_xfer_single. */
    method StartTransfer(fromDevice: bool, target: nat, buffer: Mdl, transferLength: nat)
      requires Disjoint(buffer)
      modifies this
      ensures Valid() && state == Start
      ensures log == Log(buffer, transferLength, target, Bytes(buffer), [], [], 0, 0) && Bytes(buffer) == old(Bytes(buffer))
      ensures mode == (if fromDevice then RegisterTx else Tx) && address == Narrow(target)
    {
      hide Bytes;
      hide Buffers;
      hide Disjoint;
      hide Complete;
      hide InWrite;
      hide InRead;
      hide Addressed;
      hide Narrow;
      Apart(buffer);
      BuffersAreAllocated(buffer);
      ghost var was := Bytes(buffer);
      SetUp(fromDevice, target, buffer, transferLength);
      log := Log(buffer, transferLength, target, was, [], [], 0, 0);
      assert Bytes(buffer) == was;
    }

    /** The second half of i2c_xfer_single when the wait has timed out. */
    method Timeout()
      requires Valid()
      modifies this`regs, this`state
      ensures Valid() && state == Idle && log == old(log)
      ensures regs == old(regs).(ien := NoInterrupt, con := Con(true, Tx, false, true, false, false))
    {
      hide Bytes;
      hide Buffers;
      hide Disjoint;
      hide Complete;
      Apart(log.request);
      regs := regs.(ien := NoInterrupt, con := TUNING_ONLY.(en := true, stop := true));
      state := Idle;
    }

    /** rk3x_i2c_stop: the last message gets a STOP condition, any other ends here and is signalled. */
    method StopTransfer(status: NtStatus)
      requires !state.Idle? && log.signals == 0
      requires status == Success ==> isLastMsg && Complete(log, mode, address, Bytes(log.request))
      requires isLastMsg && mode == RegisterTx ==> log.clocked == Clock(log.request, log.total, 0)
      requires address == Narrow(log.target) && (isLastMsg ==> regs.con.en)
      modifies this`processed, this`chain, this`length, this`transactionStatus, this`state, this`regs, this`log
      ensures Valid() && transactionStatus == status
      ensures state == if isLastMsg then Stop else Idle
      ensures log == old(log).(signals := if isLastMsg then 0 else 1)
      ensures processed == 0 && length == 0 && chain == Null
      ensures isLastMsg ==> regs == old(regs).(ien := StopOnly, con := old(regs).con.(stop := true))
      ensures !isLastMsg ==> regs == old(regs).(con := Con(false, Tx, false, false, false, false))
    {
      hide Bytes;
      hide Buffers;
      hide Disjoint;
      hide Complete;
      Apart(log.request);
      processed, chain, length := 0, Null, 0;
      transactionStatus := status;
      if isLastMsg {
        state := Stop;
        regs := regs.(ien := StopOnly, con := regs.con.(stop := true));
      } else {
        state := Idle;
        regs := regs.(con := TUNING_ONLY);
        log := log.(signals := log.signals + 1);
      }
    }

    // ---- filling the transmit buffer ----

    /** What `processed` says when the fill has come to position `pos` of the wire stream. */
    predicate StandsAt(pos: nat)
      reads this
    {
      processed == (if pos == 0 then 0 else pos - 1) && processed <= length
    }

    ghost predicate Filling(now: seq<byte>)
      reads this
    {
      chain == log.request && length == log.total && now == log.initial
    }

    /** The byte that goes to position `pos`, `cnt` bytes into the chunk. */
    method NextByte(cnt: nat, was: byte, ghost pos: nat) returns (b: byte)
      requires Filling(Bytes(chain)) && StandsAt(pos) && pos <= length && (pos == 0 <==> processed == 0 && cnt == 0)
      modifies this`processed, this`transactionStatus
      ensures Filling(Bytes(chain)) && StandsAt(pos + 1)
      ensures transactionStatus == Success ==> old(transactionStatus) == Success
      ensures transactionStatus == Success ==> pos < |Wire(log, address)| && b == Wire(log, address)[pos]
    {
      hide Bytes;
      hide Buffers;
      Apart(chain);
      BuffersAreAllocated(chain);
      if processed == 0 && cnt == 0 {
        b := Addressed(address, false);
      } else {
        var status;
        status, b := GetByte(chain, length, processed, was);
        processed := processed + 1;
        if status != Success { transactionStatus := status; }
      }
    }

    /** One register of the buffer: up to four bytes, fewer where the transfer ends. */
    method FillWord(cnt: nat, was: byte, ghost pos: nat) returns (val: Word, n: nat, last: byte)
      requires Filling(Bytes(chain)) && StandsAt(pos) && pos <= length && (pos == 0 <==> processed == 0 && cnt == 0)
      requires IsWire(log, address, pos, [], transactionStatus)
      modifies this`processed, this`transactionStatus
      ensures Filling(Bytes(chain)) && StandsAt(pos + n) && 1 <= n <= 4 && pos + n <= length + 1
      ensures n == 4 || processed == length
      ensures transactionStatus == Success ==> old(transactionStatus) == Success
      ensures IsWire(log, address, pos, val[..n], transactionStatus)
    {
      hide Bytes;
      hide Buffers;
      hide Filling;
      hide IsWire;
      hide Wire;
      val, last := ZERO, was;
      n := 0;
      assert val[..0] == [];
      while n < 4
        invariant 0 <= n <= 4 && Filling(Bytes(chain)) && StandsAt(pos + n) && pos + n <= length + 1
        invariant pos + n == 0 <==> processed == 0 && cnt + n == 0
        invariant n == 0 ==> pos <= length
        invariant transactionStatus == Success ==> old(transactionStatus) == Success
        invariant IsWire(log, address, pos, val[..n], transactionStatus)
      {
        if processed == length && cnt + n != 0 { break; }
        ghost var before, bytes := transactionStatus, val[..n];
        last := NextByte(cnt + n, last, pos + n);
        WireSnoc(log, address, pos, bytes, before, last, transactionStatus);
        val := val[n := last];
        assert val[..n + 1] == bytes + [last];
        n := n + 1;
      }
    }

    /** rk3x_i2c_fill_transmit_buf: the next chunk of the write, the address byte first of all. */
    method FillTransmitBuf(junk: byte)
      requires Underway() && mode == Tx && (log.sent == [] ==> processed == 0) && (log.sent != [] ==> 0 < processed < length)
      requires regs.con.mode == Tx && !regs.con.start && regs.ien == WriteAndNak
      requires SentPrefix(log, address, if log.sent == [] then 0 else processed + 1, transactionStatus, Bytes(log.request))
      modifies this`processed, this`transactionStatus, this`regs, this`log
      ensures InWrite(Bytes(log.request)) && |log.sent| == |old(log).sent| + 1
      ensures log == old(log).(sent := log.sent) && old(log).sent < log.sent
      ensures regs == old(regs).(txBuffer := regs.txBuffer, mtxcnt := regs.mtxcnt)
    {
      hide Bytes;
      hide Buffers;
      hide Held;
      hide Disjoint;
      hide SentPrefix;
      hide Wire;
      hide IsWire;
      hide Chunked;
      hide Concat;
      hide Addressed;
      Apart(chain);
      BuffersAreAllocated(chain);
      ghost var start, now, before := if log.sent == [] then 0 else processed + 1, Bytes(chain), transactionStatus;
      ghost var out: seq<byte> := [];
      var cnt, i: nat, byte := 0, 0, junk;
      PrefixStarts(log, address, start, transactionStatus, now);
      HeldNothing(regs.txBuffer);
      while i < 8
        modifies this`processed, this`transactionStatus, this`regs
        invariant 0 <= i <= 8 && cnt == 4 * i && (i > 0 ==> processed < length)
        invariant Underway() && Filling(Bytes(chain)) && Bytes(chain) == now && StandsAt(start + cnt) && start + cnt <= length + 1
        invariant |out| == cnt && out == Held(regs.txBuffer, cnt)
        invariant IsWire(log, address, start, out, transactionStatus)
        invariant transactionStatus == Success ==> before == Success
        invariant regs == old(regs).(txBuffer := regs.txBuffer)
      {
        ghost var st, words := transactionStatus, regs.txBuffer;
        WireTail(log, address, start, out, transactionStatus);
        var val, n, last := FillWord(cnt, byte, start + cnt);
        BuffersAreAllocated(chain);
        byte := last;
        HeldGrows(words, i, val, n);
        regs := regs.(txBuffer := regs.txBuffer[i := val]);
        WireConcat(log, address, start, out, st, val[..n], transactionStatus);
        out := out + val[..n];
        cnt := cnt + n;
        if processed == length { break; }
        i := i + 1;
      }
      regs := regs.(mtxcnt := cnt);
      SendChunk(log, address, start, before, now, out, transactionStatus);
      log := log.(sent := log.sent + [out]);
    }

    // ---- the handlers of the states ----

    /** rk3x_i2c_prepare_read. */
    method PrepareRead()
      requires processed <= length && (processed == 0 ==> regs.con.mode == RegisterTx)
      modifies this`regs, this`log
      ensures ReadSetUp(regs, processed, length) && log == old(log).(clocked := old(log).clocked + regs.mrxcnt)
      ensures regs == old(regs).(con := old(regs).con.(lastAck := regs.con.lastAck, mode := regs.con.mode), mrxcnt := regs.mrxcnt)
    {
      var len, con := length - processed, regs.con;
      if len > 32 {
        len := 32;
        con := con.(lastAck := false);
      } else {
        con := con.(lastAck := true);
      }
      if processed != 0 { con := con.(mode := Rx); }
      regs := regs.(con := con, mrxcnt := len);
      log := log.(clocked := log.clocked + len);
    }

    method HandleStart(ipd: Pending, junk: byte)
      requires Valid() && state == Start
      modifies this
      ensures Valid() && log == old(log).(sent := log.sent, clocked := log.clocked, signals := log.signals)
      ensures !ipd.start ==> state == Idle && transactionStatus == IoDeviceError
      ensures ipd.start ==> state == if mode == Tx then Writing else Reading
      ensures ipd.start && mode == Tx ==> |log.sent| == 1
      ensures log.signals == if ipd.start then 0 else 1
      ensures unchanged(`mode) && unchanged(`address)
    {
      hide Bytes;
      hide Buffers;
      hide Held;
      hide Complete;
      hide Disjoint;
      Apart(log.request);
      BuffersAreAllocated(log.request);
      ghost var now := Bytes(log.request);
      if !ipd.start {
        StopTransfer(IoDeviceError);
        return;
      }
      regs := regs.(con := regs.con.(start := false));
      NothingYet(log, address, now);
      if mode == Tx {
        regs := regs.(ien := WriteAndNak);
        state := Writing;
        FillTransmitBuf(junk);
      } else {
        regs := regs.(ien := ReadAndNak);
        state := Reading;
        PrepareRead();
      }
    }

    method HandleWrite(ipd: Pending, junk: byte)
      requires Valid() && state == Writing
      modifies this
      ensures Valid() && log == old(log).(sent := log.sent, signals := log.signals)
      ensures !ipd.mbtf ==> state == Idle && transactionStatus == IoDeviceError
      ensures log.signals == if ipd.mbtf then 0 else 1
      ensures ipd.mbtf ==> state == if old(processed) == old(length) then Stop else Writing
      ensures ipd.mbtf && state == Stop ==> transactionStatus == old(transactionStatus) && log == old(log)
      ensures ipd.mbtf && state == Writing ==> |log.sent| == |old(log).sent| + 1
      ensures unchanged(`mode) && unchanged(`address)
    {
      hide Bytes;
      hide Buffers;
      hide Held;
      hide Disjoint;
      Apart(log.request);
      BuffersAreAllocated(log.request);
      if !ipd.mbtf {
        StopTransfer(IoDeviceError);
        return;
      }
      if processed >= length {
        isLastMsg := true;
        StopTransfer(transactionStatus);
      } else {
        SentSome(log, address, processed + 1, transactionStatus, Bytes(log.request));
        FillTransmitBuf(junk);
      }
    }

    /** Stores a received chunk in the buffer, byte after byte, up to the first that cannot be stored. */
    method StoreChunk(rx: Buffer, len: nat)
      requires Disjoint(chain) && chain == log.request && processed + len <= length && len <= CHUNK
      requires transactionStatus == Success ==> processed <= |Bytes(chain)|
      modifies this`processed, this`transactionStatus, Buffers(chain)
      ensures old(processed) <= processed <= length && Filled(old(Bytes(chain)), old(processed), rx, len, Bytes(chain), transactionStatus)
      ensures transactionStatus == Success ==> processed == old(processed) + len && old(transactionStatus) == Success
      ensures processed == StoredTo(chain, old(processed), len)
    {
      hide Bytes;
      hide Buffers;
      hide Disjoint;
      hide Filled;
      hide MappedAt;
      ghost var before := Bytes(chain);
      Apart(chain);
      BuffersAreAllocated(chain);
      FilledNone(before, processed, rx, transactionStatus);
      var i, val: Word := 0, ZERO;
      while i < len
        modifies this`processed, this`transactionStatus, Buffers(chain)
        invariant 0 <= i <= len && processed == old(processed) + i
        invariant i % 4 > 0 ==> val == rx[i / 4]
        invariant StoredTo(chain, processed, len - i) == StoredTo(chain, old(processed), len)
        invariant transactionStatus == Success ==> old(transactionStatus) == Success
        invariant Filled(before, old(processed), rx, i, Bytes(chain), transactionStatus)
      {
        if i % 4 == 0 { val := rx[i / 4]; }
        ghost var was, st := Bytes(chain), transactionStatus;
        var status := SetByte(chain, length, processed, val[i % 4]);
        BuffersAreAllocated(chain);
        ghost var now := Bytes(chain);
        processed := processed + 1;
        if status != Success {
          transactionStatus := status;
          FilledFailed(before, old(processed), rx, len, Bytes(chain), transactionStatus);
          return;
        }
        FilledMore(before, old(processed), rx, i, was, st);
        i := i + 1;
      }
    }

    /** The chunk that has come is stored, and logged unless it is empty. */
    method TakeChunk(rx: Buffer, len: nat)
      requires Disjoint(log.request) && Underway() && InRead(Bytes(log.request)) && len == AtMostChunk(length - processed)
      modifies this`processed, this`transactionStatus, this`log, Buffers(log.request)
      ensures Disjoint(log.request) && Underway() && old(processed) <= processed
      ensures processed == StoredTo(chain, old(processed), len)
      ensures log.clocked + Clock(log.request, log.total, processed) == Clock(log.request, log.total, 0)
      ensures transactionStatus == Success ==> processed == old(processed) + len
      ensures transactionStatus == Success ==> ReceivedPrefix(log, processed, Bytes(log.request))
      ensures log == old(log).(received := if transactionStatus == Success && len > 0 then old(log).received + [Held(rx, len)]
                                           else old(log).received)
    {
      hide Bytes;
      hide Buffers;
      hide Held;
      hide Disjoint;
      hide ReceivedPrefix;
      hide Filled;
      hide Clock;
      ghost var before, at := Bytes(log.request), processed;
      ClockStep(log.request, length, processed);
      if transactionStatus == Success { PrefixLength(log, processed, before); }
      StoreChunk(rx, len);
      Apart(log.request);
      BuffersAreAllocated(log.request);
      if transactionStatus == Success {
        ReceiveStored(log, at, before, rx, len, Bytes(log.request));
        if len > 0 { log := log.(received := log.received + [Held(rx, len)]); }
      }
    }

    /** What is received is stored; then the message ends, or the next chunk is set up. */
    method HandleRead(ipd: Pending, rx: Buffer)
      requires Valid() && state == Reading
      modifies this, Buffers(log.request)
      ensures Valid() && log == old(log).(received := log.received, clocked := log.clocked)
      ensures !ipd.mbrf ==> state == Reading && log == old(log) && processed == old(processed)
      ensures state == Reading || state == Stop
      ensures ipd.mbrf && old(length - processed) <= CHUNK && transactionStatus == Success ==> state == Stop
      ensures ipd.mbrf && state == Reading ==>
                && processed == StoredTo(old(chain), old(processed), old(regs).mrxcnt) < length == old(length)
                && log.clocked == old(log).clocked + regs.mrxcnt
      ensures ipd.mbrf && state == Stop ==>
                && StoredTo(old(chain), old(processed), old(regs).mrxcnt) == old(length)
                && log.clocked == old(log).clocked
      ensures ipd.mbrf && transactionStatus == Success && old(length - processed) > 0 ==>
                log.received == old(log).received + [Held(rx, old(regs).mrxcnt)]
      ensures unchanged(`mode) && unchanged(`address)
    {
      hide Bytes;
      hide Buffers;
      hide Held;
      hide Disjoint;
      hide ReceivedPrefix;
      hide Clock;
      hide StoredTo;
      var len := length - processed;
      if !ipd.mbrf { return; }
      if len > 32 { len := 32; }
      TakeChunk(rx, len);
      Apart(log.request);
      BuffersAreAllocated(log.request);
      if processed >= length {
        ClockStep(log.request, length, processed);
        isLastMsg := true;
        StopTransfer(transactionStatus);
      } else {
        ghost var was := log;
        PrepareRead();
        ClockedDoesNotMatter(was, log.clocked, processed, Bytes(log.request));
      }
    }

    method HandleStop(ipd: Pending)
      requires Valid() && state == Stop
      modifies this
      ensures Valid() && log == old(log).(signals := log.signals)
      ensures log.signals == if ipd.stop then 1 else 0
      ensures ipd.stop ==> state == Idle && transactionStatus == old(transactionStatus)
      ensures ipd.stop ==> regs == old(regs).(con := old(regs).con.(stop := false))
      ensures !ipd.stop ==> state == Stop && transactionStatus == IoDeviceError
      ensures unchanged(`mode) && unchanged(`address)
    {
      hide Bytes;
      hide Buffers;
      hide Complete;
      Apart(log.request);
      if !ipd.stop {
        StopTransfer(IoDeviceError);
        return;
      }
      regs := regs.(con := regs.con.(stop := false));
      state := Idle;
      SignalsDoNotMatter(log, 1, mode, address, Bytes(log.request));
      log := log.(signals := log.signals + 1);
    }

    /** rk3x_i2c_irq: for any interrupts in any order, completion is signalled exactly when the state
        machine comes to rest, hence once for a transfer at most. */
    method Irq(pending: Pending, rx: Buffer, junk: byte)
      requires Valid()
      modifies this, Buffers(log.request)
      ensures Valid()
      ensures log.signals == old(log).signals + (if old(state) != Idle && state == Idle then 1 else 0)
      ensures log == old(log).(sent := log.sent, received := log.received, clocked := log.clocked, signals := log.signals)
      ensures old(state) == Idle ==> state == Idle && log == old(log) && transactionStatus == old(transactionStatus)
      ensures old(state) != Idle && pending.nak ==> transactionStatus != Success && (state == Idle || state == Stop)
      ensures old(isLastMsg) && old(state) == Stop && pending.stop ==> state == Idle
      ensures !pending.nak && !(pending.mbtf || pending.mbrf || pending.start || pending.stop) ==>
                state == old(state) && log == old(log) && transactionStatus == old(transactionStatus)
      ensures !pending.nak && old(state) == Start && pending.start ==> state == if old(mode) == Tx then Writing else Reading
      ensures !pending.nak && old(state) == Start && !pending.start && (pending.mbtf || pending.mbrf || pending.stop) ==>
                state == Idle && transactionStatus == IoDeviceError
      ensures !pending.nak && old(state) == Writing && pending.mbtf ==>
                if old(processed) == old(length) then state == Stop && transactionStatus == old(transactionStatus)
                else state == Writing && |log.sent| == |old(log).sent| + 1
      ensures !pending.nak && old(state) == Writing && !pending.mbtf && (pending.mbrf || pending.start || pending.stop) ==>
                state == Idle && transactionStatus == IoDeviceError
      ensures !pending.nak && old(state) == Reading && pending.mbrf ==>
                state == Stop || (state == Reading && log.clocked == old(log).clocked + regs.mrxcnt)
      ensures !pending.nak && old(state) == Reading && !pending.mbrf ==> state == Reading && log == old(log)
      ensures !pending.nak && old(state) == Stop && !pending.stop && (pending.mbtf || pending.mbrf || pending.start) ==>
                state == Stop && transactionStatus == IoDeviceError
    {
      hide Valid;
      hide Buffers;
      if state == Idle { return; }
      SignalsAreZero();
      BuffersAreAllocated(log.request);
      if pending.nak { StopTransfer(InvalidTransaction); }
      if !AnythingLeft(pending) { return; }
      match state
      case Start => HandleStart(pending, junk);
      case Writing => HandleWrite(pending, junk);
      case Reading => HandleRead(pending, rx);
      case Stop => HandleStop(pending);
      case Idle =>
    }

    lemma SignalsAreZero()
      requires Valid() && state != Idle
      ensures log.signals == 0 && (state == Stop ==> isLastMsg) && (state != Stop ==> !isLastMsg)
      ensures address == Narrow(log.target) && regs.con.en
      ensures isLastMsg && mode == RegisterTx ==> log.clocked == Clock(log.request, log.total, 0)
    {
    }
  }
}
