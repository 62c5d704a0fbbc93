/** The functions of the dwcmshc driver that work on a request, as they update the device extension. Each is
    proved to be the step of the same name of the state machine. */
module SdDriver {
  import opened Common
  import opened Machine32
  import opened SdRequest

  /** What has passed the data port, what a running MshcStartPioTransfer has fetched, and the phases issued
      and completed. */
  datatype Log = Log(port: seq<u32>, starting: Option<Events>, issued: nat, completions: nat, completed: nat)

  /** The device extension together with the request it works on. `memory` begins where the data buffer of the
      request does. */
  class Extension {
    const fifoDepth: nat
    var command: Command
    var phase: Phase
    var required: Events
    var status: Status
    var outstandingRequest: bool
    var currentEvents: Events
    var currentErrors: Errors
    var fifoThreshold: nat
    var remainingLength: nat
    var dataOffset: nat
    var memory: array<u32>
    var busyQueued: bool
    var localRequestPending: bool

    ghost var log: Log

    ghost function View(): Ext
      reads this, memory
    {
      Ext(fifoDepth, command, phase, required, status, outstandingRequest, currentEvents, currentErrors, fifoThreshold,
          remainingLength, dataOffset, memory[..], log.port, log.starting, busyQueued, localRequestPending,
          log.issued, log.completions, log.completed)
    }

    /** From where the request is released to where its completion is reported, to the port driver or, for
        a local request, to the thread that polls for it. */
    method ReleaseRequest(inserted: bool) returns (toPort: bool)
      modifies this`outstandingRequest, this`status, this`localRequestPending, this`log
      ensures View() == Release(old(View()), inserted) && toPort == !old(localRequestPending)
    {
      if status == Success || status == MoreProcessing { outstandingRequest := false; }
      if !inserted { status := Failed; }
      toPort := !localRequestPending;
      localRequestPending := false;
      log := log.(completions := log.completions + 1, completed := log.completed + 1);
    }

    method CompleteRequest(s: Status, lines: Lines)
      modifies this`outstandingRequest, this`status, this`localRequestPending, this`busyQueued, this`log
      ensures View() == Complete(old(View()), s, lines)
    {
      status := s;
      if status == Success && required == NO_EVENTS && (command.busyResponse || command.write) {
        if lines.busy {
          busyQueued := true;
          return;
        }
      }
      var _ := ReleaseRequest(lines.inserted);
    }

    /** One wait of the work item, and the completion after it, which may send it back to waiting. */
    method CompleteRequestBusyWorker(idle: bool, lines: Lines)
      requires busyQueued && outstandingRequest
      modifies this`outstandingRequest, this`status, this`localRequestPending, this`busyQueued, this`log
      ensures View() == Worker(old(View()), idle, lines)
    {
      busyQueued := false;
      CompleteRequest(if idle then Success else Failed, lines);
    }

    method KeepEvents(events: Events, errors: Errors)
      modifies this`currentEvents, this`currentErrors
      ensures View() == LocalIsr(old(View()), events, errors)
    {
      currentEvents := Or(currentEvents, events);
      currentErrors := OrErrors(currentErrors, errors);
    }

    method ProcessEvents(events: Events, lines: Lines)
      modifies this
      ensures memory == old(memory) && View() == Process(old(View()), events, lines)
    {
      hide Complete;
      hide Without;
      required := Without(required, events);
      if currentErrors != NO_ERRORS {
        if (currentErrors.cmdTimeout && !events.response) || (currentErrors.dataTimeout && !events.rwEnd) { return; }
        required, currentEvents, currentErrors := NO_EVENTS, NO_EVENTS, NO_ERRORS;
        CompleteRequest(Failed, lines);
      } else if required == NO_EVENTS {
        var result := if status != MoreProcessing then Success else status;
        CompleteRequest(result, lines);
      }
    }

    method RequestDpc(events: Events, errors: Errors, lines: Lines)
      modifies this
      ensures memory == old(memory) && View() == Dpc(old(View()), events, errors, lines)
    {
      hide Process;
      if (events == NO_EVENTS && errors == NO_ERRORS) || required == NO_EVENTS { return; }
      KeepEvents(events, errors);
      if outstandingRequest { ProcessEvents(events, lines); }
    }

    method LocalRequestDpc(lines: Lines)
      modifies this
      ensures memory == old(memory) && View() == LocalDpc(old(View()), lines)
    {
      if outstandingRequest { RequestDpc(currentEvents, currentErrors, lines); }
    }

    /** MshcBuildTransfer: what is to be moved, and the FIFO threshold that paces it. */
    method BuildTransfer()
      modifies this`remainingLength, this`fifoThreshold
      ensures View() == old(View()).(remaining := command.length, threshold := Threshold(command, fifoDepth))
    {
      remainingLength := command.length;
      fifoThreshold := fifoDepth / 2;
      if command.transfer == Pio && command.length / 4 < fifoDepth / 2 { fifoThreshold := command.length / 4; }
    }

    /** MshcSendCommand: the events that are to come. */
    method SendCommand()
      modifies this`currentEvents, this`currentErrors, this`required
      ensures View() == old(View()).(currentEvents := NO_EVENTS, currentErrors := NO_ERRORS, required := RequiredFor(command))
    {
      currentEvents, currentErrors := NO_EVENTS, NO_ERRORS;
      required := NO_EVENTS.(response := true);
      if command.transfer == SgDma {
        required := required.(rwEnd := true);
      } else if command.transfer == Pio {
        if command.write { required := required.(bufferEmpty := true); } else { required := required.(bufferFull := true); }
      }
    }

    /** The request that the extension works on from here on, with its data buffer. */
    method TakeRequest(c: Command, buffer: array<u32>)
      modifies this`command, this`status, this`memory, this`dataOffset, this`log
      ensures memory == buffer && command == c
      ensures View() == old(View()).(command := c, status := Unset, offset := 0, memory := old(buffer[..]), port := [])
    {
      command, status := c, Unset;
      memory, dataOffset := buffer, 0;
      log := log.(port := []);
    }

    /** MshcSlotIssueRequest acquires the request for a phase. */
    method BeginPhase(p: Phase, local: bool)
      modifies this`localRequestPending, this`phase, this`outstandingRequest, this`log
      ensures View() == old(View()).(phase := p, outstanding := true,
        localPending := old(localRequestPending) || local, issued := old(log.issued) + 1, completions := 0)
    {
      if local { localRequestPending := true; }
      phase, outstandingRequest := p, true;
      log := log.(issued := log.issued + 1, completions := 0);
    }

    /** MshcSlotIssueRequest for a new request, whose data buffer is at the start of `buffer`. */
    method IssueCommand(c: Command, local: bool, buffer: array<u32>)
      modifies this
      ensures memory == buffer && View() == Issue(old(View()), c, local, old(buffer[..]))
    {
      hide Threshold;
      hide RequiredFor;
      TakeRequest(c, buffer);
      BeginPhase(CommandPhase, local);
      if c.transfer != NoData { BuildTransfer(); }
      SendCommand();
    }

    /** MshcSlotIssueRequest for a transfer phase of the same request, when nothing else happens while a chunk is moved. */
    method IssueTransfer(local: bool, fifo: seq<u32>, lines: Lines)
      requires command.transfer == Pio ==> |fifo| == fifoThreshold && dataOffset / 4 + fifoThreshold <= memory.Length
      modifies this, memory
      ensures memory == old(memory)
      ensures old(command.transfer) != Pio ==> View() == StartTransfer(old(View()), local, fifo, lines)
      ensures old(command.transfer) == Pio ==> View() == FinishPio(StartTransfer(old(View()), local, fifo, lines), lines)
    {
      hide Complete;
      hide FinishPio;
      BeginPhase(TransferPhase, local);
      match command.transfer
      case Pio =>
        hide FetchPio;
        var events := FetchPioChunk(fifo);
        FinishPioChunk(events, lines);
      case SgDma =>
        remainingLength := 0;
        CompleteRequest(Success, lines);
      case NoData =>
    }

    /** The first half of MshcStartPioTransfer. A read takes its words from `fifo`. */
    method FetchPioChunk(fifo: seq<u32>) returns (events: Events)
      requires |fifo| == fifoThreshold && dataOffset / 4 + fifoThreshold <= memory.Length
      modifies this`currentEvents, this`remainingLength, this`log, memory
      ensures View() == FetchPio(old(View()), fifo) && View().starting == Some(events)
    {
      hide Wrap32;
      events := currentEvents;
      currentEvents := NO_EVENTS;
      log := log.(starting := Some(events));
      var subTransferLength := fifoThreshold * 4;
      if !command.write {
        ReadDataPort(dataOffset / 4, fifo);
        log := log.(port := log.port + fifo);
      } else {
        var words := WriteDataPort(dataOffset / 4, fifoThreshold);
        log := log.(port := log.port + words);
      }
      remainingLength := Wrap32(remainingLength - subTransferLength);
    }

    /** The words of the FIFO go to the data buffer, one after the other. */
    method ReadDataPort(at: nat, fifo: seq<u32>)
      requires at + |fifo| <= memory.Length
      modifies memory
      ensures memory[..] == Stored(old(memory[..]), at, fifo)
    {
      for i := 0 to |fifo|
        invariant memory[..] == Stored(old(memory[..]), at, fifo[..i])
      {
        memory[at + i] := fifo[i];
      }
      assert fifo[..|fifo|] == fifo;
    }

    /** The words of the data buffer go to the FIFO. */
    method WriteDataPort(at: nat, count: nat) returns (words: seq<u32>)
      requires at + count <= memory.Length
      ensures words == WordsAt(memory[..], at, count)
    {
      words := [];
      for i := 0 to count
        invariant words == WordsAt(memory[..], at, i)
      {
        words := words + [memory[at + i]];
      }
    }

    /** The second half. */
    method FinishPioChunk(events: Events, lines: Lines)
      requires log.starting == Some(events)
      modifies this
      ensures memory == old(memory) && View() == FinishPio(old(View()), lines)
    {
      hide Complete;
      log := log.(starting := None);
      if remainingLength > 0 {
        dataOffset := dataOffset + fifoThreshold * 4;
        if command.write { required := required.(bufferEmpty := true); } else { required := required.(bufferFull := true); }
        status := MoreProcessing;
      } else if events.rwEnd {
        CompleteRequest(Success, lines);
      } else {
        status := Success;
        required := required.(rwEnd := true);
      }
    }
  }
}
