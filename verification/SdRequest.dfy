/** The life of a request in the dwcmshc SD controller driver: issued in phases, completed by the DPC, at
    once while it is issued, or by a work item that waits for the card to stop signalling busy. */
module SdRequest {
  import opened Common
  import opened Machine32

  /** Standard events: card response, end of transfer, receive buffer full, transmit buffer empty. */
  datatype Events = Events(response: bool, rwEnd: bool, bufferFull: bool, bufferEmpty: bool)

  const NO_EVENTS: Events := Events(false, false, false, false)

  function Or(a: Events, b: Events): Events {
    Events(a.response || b.response, a.rwEnd || b.rwEnd, a.bufferFull || b.bufferFull, a.bufferEmpty || b.bufferEmpty)
  }

  function Without(a: Events, b: Events): Events {
    Events(a.response && !b.response, a.rwEnd && !b.rwEnd, a.bufferFull && !b.bufferFull, a.bufferEmpty && !b.bufferEmpty)
  }

  datatype Errors = Errors(cmdTimeout: bool, dataTimeout: bool, other: bool)

  const NO_ERRORS: Errors := Errors(false, false, false)

  function OrErrors(a: Errors, b: Errors): Errors {
    Errors(a.cmdTimeout || b.cmdTimeout, a.dataTimeout || b.dataTimeout, a.other || b.other)
  }

  datatype Status = Unset | Success | MoreProcessing | Failed

  datatype Phase = CommandPhase | TransferPhase

  datatype Transfer = NoData | Pio | SgDma

  /** What is fixed about a request. */
  datatype Command = Command(transfer: Transfer, write: bool, busyResponse: bool, length: nat)

  /** The request and the parts of the device extension that deal with it. `outstanding` says whether
      OutstandingRequest points to the request or is null. `memory` are the words from the start of the
      request's data buffer on, `offset` is where its data pointer stands, and `port` are the words that have
      passed the data port. While a PIO phase is being started, `starting` holds the events it has fetched. */
  datatype Ext = Ext(fifoDepth: nat, command: Command, phase: Phase, required: Events, status: Status,
                     outstanding: bool, currentEvents: Events, currentErrors: Errors,
                     threshold: nat, remaining: nat, offset: nat, memory: seq<u32>, port: seq<u32>,
                     starting: Option<Events>, busyQueued: bool, localPending: bool,
                     issued: nat, completions: nat, completed: nat)

  /** What the hardware answers when it is asked: data busy, card inserted. */
  datatype Lines = Lines(busy: bool, inserted: bool)

  // ---- the steps ----

  /** The second half of MshcCompleteRequest. */
  function Release(s: Ext, inserted: bool): Ext {
    s.(outstanding := s.outstanding && s.status != Success && s.status != MoreProcessing,
       status := if inserted then s.status else Failed,
       localPending := false, completions := s.completions + 1, completed := s.completed + 1)
  }

  predicate WaitsForIdle(s: Ext) {
    s.status == Success && s.required == NO_EVENTS && (s.command.busyResponse || s.command.write)
  }

  /** MshcCompleteRequest at DISPATCH_LEVEL. */
  function Complete(s: Ext, status: Status, lines: Lines): Ext {
    var t := s.(status := status);
    if WaitsForIdle(t) && lines.busy then t.(busyQueued := true) else Release(t, lines.inserted)
  }

  /** The work item, once its wait for the data lines has ended in one way or the other. When the lines are
      busy again by the time the completion looks, it waits once more. */
  function Worker(s: Ext, idle: bool, lines: Lines): Ext {
    var t := s.(status := if idle then Success else Failed);
    if WaitsForIdle(t) && lines.busy then t else Release(t.(busyQueued := false), lines.inserted)
  }

  predicate StillWaits(errors: Errors, events: Events) {
    (errors.cmdTimeout && !events.response) || (errors.dataTimeout && !events.rwEnd)
  }

  /** Events and errors are kept, by the DPC and, for the DPC of local requests, by the ISR. */
  function LocalIsr(s: Ext, events: Events, errors: Errors): Ext {
    s.(currentEvents := Or(s.currentEvents, events), currentErrors := OrErrors(s.currentErrors, errors))
  }

  /** What the DPC does with the events of an outstanding request. */
  function Process(a: Ext, events: Events, lines: Lines): Ext {
    var b := a.(required := Without(a.required, events));
    if b.currentErrors != NO_ERRORS then
      if StillWaits(b.currentErrors, events) then b
      else Complete(b.(required := NO_EVENTS, currentEvents := NO_EVENTS, currentErrors := NO_ERRORS), Failed, lines)
    else if b.required == NO_EVENTS then
      Complete(b, if b.status != MoreProcessing then Success else b.status, lines)
    else b
  }

  /** MshcRequestDpc. */
  function Dpc(s: Ext, events: Events, errors: Errors, lines: Lines): Ext {
    if (events == NO_EVENTS && errors == NO_ERRORS) || s.required == NO_EVENTS then s
    else
      var a := LocalIsr(s, events, errors);
      if a.outstanding then Process(a, events, lines) else a
  }

  function LocalDpc(s: Ext, lines: Lines): Ext {
    if s.outstanding then Dpc(s, s.currentEvents, s.currentErrors, lines) else s
  }

  function BufferEvent(c: Command): Events { NO_EVENTS.(bufferFull := !c.write, bufferEmpty := c.write) }

  /** MshcBuildPioTransfer: a short transfer lowers the threshold so that its data request still comes. */
  function Threshold(c: Command, fifoDepth: nat): nat {
    if c.transfer == Pio && c.length / 4 < fifoDepth / 2 then c.length / 4 else fifoDepth / 2
  }

  function RequiredFor(c: Command): Events {
    match c.transfer
    case NoData => NO_EVENTS.(response := true)
    case SgDma => NO_EVENTS.(response := true, rwEnd := true)
    case Pio => BufferEvent(c).(response := true)
  }

  /** MshcSlotIssueRequest with MshcSendCommand: the command phase of a new request. */
  function Issue(s: Ext, c: Command, local: bool, memory: seq<u32>): Ext {
    s.(command := c, phase := CommandPhase, status := Unset, outstanding := true,
       currentEvents := NO_EVENTS, currentErrors := NO_ERRORS, required := RequiredFor(c),
       threshold := if c.transfer == NoData then s.threshold else Threshold(c, s.fifoDepth),
       remaining := if c.transfer == NoData then s.remaining else c.length,
       offset := 0, memory := memory, port := [], localPending := s.localPending || local,
       issued := s.issued + 1, completions := 0)
  }

  /** The bytes of a chunk. */
  function Chunk(s: Ext): nat { 4 * s.threshold }

  function WordsAt(memory: seq<u32>, at: nat, count: nat): (r: seq<u32>)
    ensures |r| == count
  {
    seq(count, i => if 0 <= at + i < |memory| then memory[at + i] else 0)
  }

  function Stored(memory: seq<u32>, at: nat, words: seq<u32>): (r: seq<u32>)
    ensures |r| == |memory|
  {
    seq(|memory|, i requires 0 <= i < |memory| => if at <= i < at + |words| then words[i - at] else memory[i])
  }

  /** The first half of MshcStartPioTransfer: the events so far are taken and cleared, and one chunk is read
      from the FIFO to where the data pointer stands, or written from there. */
  function FetchPio(s: Ext, fifo: seq<u32>): (r: Ext)
    ensures r.starting == Some(s.currentEvents)
  {
    var t := s.(starting := Some(s.currentEvents), currentEvents := NO_EVENTS, remaining := Wrap32(s.remaining - Chunk(s)));
    if s.command.write then t.(port := s.port + WordsAt(s.memory, s.offset / 4, s.threshold))
    else t.(port := s.port + fifo, memory := Stored(s.memory, s.offset / 4, fifo))
  }

  /** The second half: the phase waits for the next data request, or the transfer is at its end. */
  function FinishPio(s: Ext, lines: Lines): Ext
    requires s.starting.Some?
  {
    var a := s.(starting := None);
    if a.remaining > 0 then
      a.(offset := a.offset + Chunk(a), required := Or(a.required, BufferEvent(a.command)), status := MoreProcessing)
    else if s.starting.value.rwEnd then Complete(a, Success, lines)
    else a.(status := Success, required := a.required.(rwEnd := true))
  }

  /** MshcStartDmaTransfer: the data went with the command. */
  function StartDma(s: Ext, lines: Lines): Ext {
    Complete(s.(remaining := 0), Success, lines)
  }

  /** MshcSlotIssueRequest for a transfer phase of the same request. */
  function StartTransfer(s: Ext, local: bool, fifo: seq<u32>, lines: Lines): Ext {
    var t := s.(phase := TransferPhase, outstanding := true, localPending := s.localPending || local,
                issued := s.issued + 1, completions := 0);
    match s.command.transfer
    case Pio => FetchPio(t, fifo)
    case SgDma => StartDma(t, lines)
    case NoData => t
  }

  /** The beginning of a reset of the host: whatever was outstanding is aborted. */
  function Reset(s: Ext): Ext { s.(outstanding := false) }

  // ---- all runs ----

  datatype Action =
    | DoIssue(c: Command, local: bool, memory: seq<u32>) | DoStart(local: bool, fifo: seq<u32>, lines: Lines)
    | DoFinish(lines: Lines) | DoDpc(events: Events, errors: Errors, lines: Lines)
    | DoLocalIsr(events: Events, errors: Errors) | DoLocalDpc(lines: Lines)
    | DoWorker(idle: bool, lines: Lines) | DoReset

  /** The port driver has one request at a time. It issues the next one when the last phase is complete or
      was aborted by a reset, and a transfer phase when the command has succeeded or more is to be processed.
      No reset overtakes a queued work item. */
  predicate CanDo(s: Ext, a: Action) {
    match a
    case DoIssue(c, _, _) => (s.completions == 1 || !s.outstanding) && !s.busyQueued && s.starting.None? && c.length < TWO_32
    case DoStart(_, fifo, _) =>
      && s.completions == 1 && s.status == (if s.phase == CommandPhase then Success else MoreProcessing)
      && s.command.transfer != NoData && |fifo| == s.threshold
    case DoFinish(_) => s.starting.Some?
    case DoDpc(_, _, _) => true
    case DoLocalIsr(_, _) => s.localPending
    case DoLocalDpc(_) => true
    case DoWorker(_, _) => s.busyQueued
    case DoReset => !s.busyQueued && s.starting.None?
  }

  function Do(s: Ext, a: Action): Ext
    requires CanDo(s, a)
  {
    match a
    case DoIssue(c, local, memory) => Issue(s, c, local, memory)
    case DoStart(local, fifo, lines) => StartTransfer(s, local, fifo, lines)
    case DoFinish(lines) => FinishPio(s, lines)
    case DoDpc(events, errors, lines) => Dpc(s, events, errors, lines)
    case DoLocalIsr(events, errors) => LocalIsr(s, events, errors)
    case DoLocalDpc(lines) => LocalDpc(s, lines)
    case DoWorker(idle, lines) => Worker(s, idle, lines)
    case DoReset => Reset(s)
  }

  /** An action that cannot be taken where it stands is skipped. */
  function Next(s: Ext, a: Action): Ext { if CanDo(s, a) then Do(s, a) else s }

  /** Any schedule. */
  function Run(s: Ext, actions: seq<Action>): Ext
    decreases |actions|
  {
    if actions == [] then s else Run(Next(s, actions[0]), actions[1..])
  }

  lemma {:induction false} RunConcat(s: Ext, a: seq<Action>, b: seq<Action>)
    ensures Run(s, a + b) == Run(Run(s, a), b)
    decreases |a|
  {
    hide Next;
    if a == [] {
      assert a + b == b;
    } else {
      assert (a + b)[0] == a[0] && (a + b)[1..] == a[1..] + b;
      RunConcat(Next(s, a[0]), a[1..], b);
    }
  }

  lemma RunThree(s: Ext, a: Action, b: Action, c: Action)
    ensures Run(s, [a, b, c]) == Next(Next(Next(s, a), b), c)
  {
    hide Next;
    assert [a, b, c][1..] == [b, c] && [b, c][1..] == [c] && [c][1..] == [];
    assert Run(Next(s, a), [b, c]) == Run(Next(Next(s, a), b), [c]);
    assert Run(Next(Next(s, a), b), [c]) == Run(Next(Next(Next(s, a), b), c), []);
  }

  /** A host at rest, with its FIFO depth. */
  function Idle(fifoDepth: nat): Ext {
    Ext(fifoDepth, Command(NoData, false, false, 0), CommandPhase, NO_EVENTS, Unset, false, NO_EVENTS, NO_ERRORS,
        0, 0, 0, [], [], None, false, false, 0, 0, 0)
  }

  /** A phase that is complete, is being started or waits for its work item requires no more events; this is
      what keeps the DPC from completing it again. */
  predicate Inv(s: Ext) {
    && (s.completions >= 1 || s.busyQueued || s.starting.Some? ==> s.required == NO_EVENTS)
    && (s.busyQueued || s.starting.Some? ==> s.completions == 0 && s.outstanding && s.issued >= 1)
    && (s.busyQueued ==> s.starting.None?)
    && s.completions <= 1 && s.completions <= s.completed
    && s.completed - s.completions <= (if s.issued > 0 then s.issued - 1 else 0)
    && (s.required != NO_EVENTS ==> s.issued >= 1)
    && (s.completions == 1 ==> s.issued >= 1)
  }

  lemma CompleteKeeps(s: Ext, status: Status, lines: Lines)
    requires Inv(s) && s.required == NO_EVENTS && s.completions == 0 && s.outstanding && !s.busyQueued && s.issued >= 1
    requires s.starting.None?
    ensures Inv(Complete(s, status, lines))
  {
  }

  lemma DpcKeeps(s: Ext, events: Events, errors: Errors, lines: Lines)
    requires Inv(s)
    ensures Inv(Dpc(s, events, errors, lines))
  {
    hide Complete;
    hide StillWaits;
    if (events != NO_EVENTS || errors != NO_ERRORS) && s.required != NO_EVENTS && s.outstanding {
      var a := LocalIsr(s, events, errors);
      var b := a.(required := Without(a.required, events));
      if b.currentErrors != NO_ERRORS {
        if !StillWaits(b.currentErrors, events) {
          CompleteKeeps(b.(required := NO_EVENTS, currentEvents := NO_EVENTS, currentErrors := NO_ERRORS), Failed, lines);
        }
      } else if b.required == NO_EVENTS {
        CompleteKeeps(b, if b.status != MoreProcessing then Success else b.status, lines);
      }
    }
  }

  lemma StartKeeps(s: Ext, local: bool, fifo: seq<u32>, lines: Lines)
    requires Inv(s) && CanDo(s, DoStart(local, fifo, lines))
    ensures Inv(StartTransfer(s, local, fifo, lines))
  {
    hide Complete;
    hide Stored;
    hide WordsAt;
    var t := s.(phase := TransferPhase, outstanding := true, localPending := s.localPending || local,
                issued := s.issued + 1, completions := 0);
    if s.command.transfer == SgDma {
      CompleteKeeps(t.(remaining := 0), Success, lines);
    }
  }

  lemma FinishKeeps(s: Ext, lines: Lines)
    requires Inv(s) && CanDo(s, DoFinish(lines))
    ensures Inv(FinishPio(s, lines))
  {
    hide Complete;
    if s.remaining == 0 { CompleteKeeps(s.(starting := None), Success, lines); }
  }

  lemma StepKeeps(s: Ext, a: Action)
    requires Inv(s) && CanDo(s, a)
    ensures Inv(Do(s, a))
  {
    hide Complete;
    hide Dpc;
    hide StartTransfer;
    hide FinishPio;
    match a
    case DoIssue(_, _, _) =>
    case DoStart(local, fifo, lines) => StartKeeps(s, local, fifo, lines);
    case DoFinish(lines) => FinishKeeps(s, lines);
    case DoDpc(events, errors, lines) => DpcKeeps(s, events, errors, lines);
    case DoLocalIsr(_, _) =>
    case DoLocalDpc(lines) => DpcKeeps(s, s.currentEvents, s.currentErrors, lines);
    case DoWorker(_, _) =>
    case DoReset =>
  }

  lemma {:induction false} RunKeeps(s: Ext, actions: seq<Action>)
    requires Inv(s)
    ensures Inv(Run(s, actions))
    decreases |actions|
  {
    hide Inv;
    hide Do;
    hide CanDo;
    if actions != [] {
      if CanDo(s, actions[0]) { StepKeeps(s, actions[0]); }
      RunKeeps(Next(s, actions[0]), actions[1..]);
    }
  }

  /** In every run the current phase is completed at most once, there are no more completions than phases,
      and the work item always finds the request it is to complete. */
  lemma CompletedAtMostOnce(fifoDepth: nat, actions: seq<Action>)
    ensures var s := Run(Idle(fifoDepth), actions);
      && s.completions <= 1 && s.completed <= s.issued
      && (s.completions == 1 || s.busyQueued || s.starting.Some? ==> s.required == NO_EVENTS)
      && (s.busyQueued || s.starting.Some? ==> s.outstanding && s.completions == 0)
  {
    RunKeeps(Idle(fifoDepth), actions);
  }

  const QUIET: Lines := Lines(false, true)

  /** Where a reset does overtake a queued work item, the work item finds no request to complete. */
  lemma ResetMayOvertakeWorker(fifoDepth: nat)
    ensures var s := Next(Next(Idle(fifoDepth), DoIssue(Command(NoData, false, true, 0), false, [])),
                          DoDpc(NO_EVENTS.(response := true), NO_ERRORS, Lines(true, true)));
      s.busyQueued && s.outstanding && !Reset(s).outstanding && CanDo(Reset(s), DoWorker(true, QUIET))
  {
  }

  // ---- a phase that nothing completes ----

  /** Nothing more is required, but the phase is neither complete nor in the hands of anyone. */
  predicate DeadEnd(s: Ext) { s.required == NO_EVENTS && s.completions == 0 && !s.busyQueued && s.starting.None? }

  /** The DPC runs into a dead end if and only if the last required events come with a timeout whose own
      end event came before, or never comes. */
  lemma DpcDeadEnds(s: Ext, events: Events, errors: Errors, lines: Lines)
    requires Inv(s) && s.required != NO_EVENTS && s.outstanding
    requires events != NO_EVENTS || errors != NO_ERRORS
    ensures DeadEnd(Dpc(s, events, errors, lines)) <==>
      Without(s.required, events) == NO_EVENTS && StillWaits(OrErrors(s.currentErrors, errors), events)
  {
  }

  predicate ByInterrupt(a: Action) { a.DoDpc? || a.DoLocalIsr? || a.DoLocalDpc? || a.DoWorker? || a.DoFinish? || a.DoStart? }

  /** No event or error that comes later gets it out. */
  lemma {:induction false} DeadEndIsFinal(s: Ext, actions: seq<Action>)
    requires DeadEnd(s) && forall a <- actions :: ByInterrupt(a)
    ensures DeadEnd(Run(s, actions))
    decreases |actions|
  {
    if actions != [] {
      assert actions[0] in actions;
      DeadEndIsFinal(Next(s, actions[0]), actions[1..]);
    }
  }

  /** It is reached: a PIO read gets its response, then its data request along with a data timeout, and the
      end of transfer that follows the timeout is thrown away. */
  lemma DeadEndIsReachable(memory: seq<u32>)
    ensures var s := Issue(Idle(256), Command(Pio, false, false, 64), false, memory);
      var t := Run(s, [DoDpc(NO_EVENTS.(response := true), NO_ERRORS, QUIET),
        DoDpc(NO_EVENTS.(bufferFull := true), NO_ERRORS.(dataTimeout := true), QUIET),
        DoDpc(NO_EVENTS.(rwEnd := true), NO_ERRORS, QUIET)]);
      DeadEnd(t) && !t.currentEvents.rwEnd
  {
    var s := Issue(Idle(256), Command(Pio, false, false, 64), false, memory);
    var a := DoDpc(NO_EVENTS.(response := true), NO_ERRORS, QUIET);
    var b := DoDpc(NO_EVENTS.(bufferFull := true), NO_ERRORS.(dataTimeout := true), QUIET);
    var c := DoDpc(NO_EVENTS.(rwEnd := true), NO_ERRORS, QUIET);
    RunThree(s, a, b, c);
  }
}
