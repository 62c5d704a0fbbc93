/** How a request of the dwcmshc SD driver ends: with success only after every event it stands for, with failure
    after an error, a wait in vain or a removed card. */
module SdOutcome {
  import opened Common
  import opened Machine32
  import opened SdRequest

  // ---- errors ----

  predicate AnyError(e: Errors) { e.cmdTimeout || e.dataTimeout || e.other }

  /** A phase is under way: neither complete, nor being started, nor waiting for the card to be idle. */
  predicate InPhase(s: Ext) { s.completions == 0 && !s.busyQueued && s.starting.None? }

  /** The phase has failed, or nothing but failure can come of it. */
  predicate Doomed(s: Ext) {
    || (InPhase(s) && AnyError(s.currentErrors))
    || (s.completions == 1 && s.status == Failed)
  }

  /** A DPC that finds something required, with an error reported now or before: it fails the request, or goes
      on waiting for the end that follows a timeout. A request that fails stays outstanding for the reset that
      follows, and no event or error is left over. */
  lemma ErrorFailsRequest(s: Ext, events: Events, errors: Errors, lines: Lines)
    requires Inv(s) && s.outstanding && s.required != NO_EVENTS
    requires AnyError(s.currentErrors) || AnyError(errors)
    requires events.response || events.rwEnd || events.bufferFull || events.bufferEmpty || AnyError(errors)
    ensures var t := Dpc(s, events, errors, lines);
      var awaitsCommand := (s.currentErrors.cmdTimeout || errors.cmdTimeout) && !events.response;
      var awaitsData := (s.currentErrors.dataTimeout || errors.dataTimeout) && !events.rwEnd;
      if awaitsCommand || awaitsData then InPhase(t) && AnyError(t.currentErrors) && t.outstanding && t.completed == s.completed
      else && t.completions == 1 && t.completed == s.completed + 1 && t.status == Failed && t.outstanding && !t.busyQueued
           && t.required == Events(false, false, false, false) && t.currentEvents == Events(false, false, false, false)
           && t.currentErrors == Errors(false, false, false) && !t.localPending
  {
    var a := LocalIsr(s, events, errors);
    assert AnyError(a.currentErrors) && a.currentErrors != NO_ERRORS;
    var b := a.(required := Without(a.required, events));
    hide Without;
    hide Or;
    assert Dpc(s, events, errors, lines) == Process(a, events, lines);
    assert StillWaits(b.currentErrors, events) <==>
      ((s.currentErrors.cmdTimeout || errors.cmdTimeout) && !events.response)
      || ((s.currentErrors.dataTimeout || errors.dataTimeout) && !events.rwEnd);
    hide StillWaits;
  }

  lemma ErrorDooms(s: Ext, events: Events, errors: Errors, lines: Lines)
    requires Inv(s) && s.required != NO_EVENTS && AnyError(errors)
    ensures Doomed(Dpc(s, events, errors, lines))
  {
  }

  lemma DpcKeepsDoomed(s: Ext, events: Events, errors: Errors, lines: Lines)
    requires Inv(s) && Doomed(s)
    ensures Doomed(Dpc(s, events, errors, lines))
  {
  }

  lemma StepKeepsDoomed(s: Ext, a: Action)
    requires Inv(s) && Doomed(s) && CanDo(s, a) && !a.DoIssue?
    ensures Doomed(Do(s, a))
  {
    hide Dpc;
    hide StartTransfer;
    hide FinishPio;
    match a
    case DoStart(_, _, _) =>
    case DoFinish(_) =>
    case DoDpc(events, errors, lines) => DpcKeepsDoomed(s, events, errors, lines);
    case DoLocalIsr(_, _) =>
    case DoLocalDpc(lines) => DpcKeepsDoomed(s, s.currentEvents, s.currentErrors, lines);
    case DoWorker(_, _) =>
    case DoReset =>
  }

  predicate SameRequest(actions: seq<Action>) { forall a <- actions :: !a.DoIssue? }

  lemma {:induction false} RunKeepsDoomed(s: Ext, actions: seq<Action>)
    requires Inv(s) && Doomed(s) && SameRequest(actions)
    ensures Doomed(Run(s, actions))
    decreases |actions|
  {
    hide Inv;
    hide Doomed;
    hide Do;
    hide CanDo;
    if actions != [] {
      assert actions[0] in actions;
      if CanDo(s, actions[0]) {
        StepKeeps(s, actions[0]);
        StepKeepsDoomed(s, actions[0]);
      }
      RunKeepsDoomed(Next(s, actions[0]), actions[1..]);
    }
  }

  /** In every run: once a DPC has found something required and brought an error, the request never completes
      with success. A DPC that finds nothing required is without effect, so its error is not noticed. */
  lemma ErrorIsNoticedIffRequired(fifoDepth: nat, before: seq<Action>, events: Events, errors: Errors, lines: Lines,
                                  after: seq<Action>)
    requires AnyError(errors) && SameRequest(after)
    ensures var s := Run(Idle(fifoDepth), before);
      var u := Dpc(s, events, errors, lines);
      var t := Run(u, after);
      if s.required != NO_EVENTS then !(t.completions == 1 && t.status in {Success, MoreProcessing}) && !t.busyQueued else u == s
  {
    var s := Run(Idle(fifoDepth), before);
    RunKeeps(Idle(fifoDepth), before);
    if s.required != NO_EVENTS {
      ErrorDooms(s, events, errors, lines);
      DpcKeeps(s, events, errors, lines);
      RunKeepsDoomed(Dpc(s, events, errors, lines), after);
      RunKeeps(Dpc(s, events, errors, lines), after);
      hide Dpc;
      hide Run;
    }
  }

  /** The same for an error that the ISR keeps for a local request, while a phase is under way. */
  lemma LocalErrorIsNoticed(fifoDepth: nat, before: seq<Action>, events: Events, errors: Errors, after: seq<Action>)
    requires var s := Run(Idle(fifoDepth), before); s.localPending && InPhase(s)
    requires AnyError(errors) && SameRequest(after)
    ensures var t := Run(LocalIsr(Run(Idle(fifoDepth), before), events, errors), after);
      !(t.completions == 1 && t.status in {Success, MoreProcessing}) && !t.busyQueued
  {
    var s := Run(Idle(fifoDepth), before);
    RunKeeps(Idle(fifoDepth), before);
    StepKeeps(s, DoLocalIsr(events, errors));
    RunKeepsDoomed(LocalIsr(s, events, errors), after);
    RunKeeps(LocalIsr(s, events, errors), after);
    hide Run;
  }

  /** While a phase is being started it is not: a local read of one block, whose end came with its data request,
      succeeds although an error has been kept for it. */
  lemma LocalErrorWhileStartingIsMissed(memory: seq<u32>, fifo: seq<u32>)
    requires |fifo| == 16
    ensures var s := Issue(Idle(256), Command(Pio, false, false, 64), true, memory);
      var u := Next(Next(s, DoLocalIsr(Or(s.required, NO_EVENTS.(rwEnd := true)), NO_ERRORS)), DoLocalDpc(QUIET));
      var t := Run(u, [DoStart(true, fifo, QUIET), DoLocalIsr(NO_EVENTS, NO_ERRORS.(other := true)), DoFinish(QUIET)]);
      t.completions == 1 && t.phase == TransferPhase && t.status == Success && AnyError(t.currentErrors)
  {
    hide Stored;
    var s := Issue(Idle(256), Command(Pio, false, false, 64), true, memory);
    var u := Next(Next(s, DoLocalIsr(Or(s.required, NO_EVENTS.(rwEnd := true)), NO_ERRORS)), DoLocalDpc(QUIET));
    RunThree(u, DoStart(true, fifo, QUIET), DoLocalIsr(NO_EVENTS, NO_ERRORS.(other := true)), DoFinish(QUIET));
  }

  // ---- waits and cards ----

  /** The lines that an action looks at. */
  function LinesOf(a: Action): Lines {
    match a
    case DoStart(_, _, lines) => lines
    case DoFinish(lines) => lines
    case DoDpc(_, _, lines) => lines
    case DoLocalDpc(lines) => lines
    case DoWorker(_, lines) => lines
    case _ => QUIET
  }

  /** What a phase that completes just now has seen: whichever action it is, a removed card means failure. A
      phase that succeeds releases the request and any other one keeps it, and the thread that polls for a
      local request is told. A success of what may leave the card busy was seen on idle lines. */
  predicate EndsWell(s: Ext, lines: Lines, t: Ext) {
    && t.completions == 1 && !t.localPending
    && (!lines.inserted ==> t.status == Failed)
    && (lines.inserted ==> (t.outstanding <==> t.status == Failed))
    && (t.status == Success && t.required == NO_EVENTS && (s.command.write || s.command.busyResponse) ==> !lines.busy)
  }

  lemma CompleteEndsWell(s: Ext, status: Status, lines: Lines)
    requires s.completions == 0 && s.outstanding && status != Unset && !s.busyQueued
    ensures var t := Complete(s, status, lines);
      && t.completed in {s.completed, s.completed + 1} && t.command == s.command
      && (t.completed == s.completed + 1 ==> EndsWell(s, lines, t) && !t.busyQueued)
      && (t.completed == s.completed ==>
            && t.busyQueued && WaitsForIdle(t) && t.completions == 0 && lines.busy && status == Success && s.required == NO_EVENTS
            && (s.command.write || s.command.busyResponse))
  {
  }

  lemma DpcEndsWell(s: Ext, events: Events, errors: Errors, lines: Lines)
    requires Inv(s)
    ensures var t := Dpc(s, events, errors, lines);
      && t.completed in {s.completed, s.completed + 1} && (t.completed == s.completed + 1 ==> EndsWell(s, lines, t))
      && (t.busyQueued ==> if s.busyQueued then t == s else WaitsForIdle(t))
  {
    hide Complete;
    hide StillWaits;
    if (events != NO_EVENTS || errors != NO_ERRORS) && s.required != NO_EVENTS && s.outstanding {
      var a := LocalIsr(s, events, errors);
      var b := a.(required := Without(a.required, events));
      if b.currentErrors != NO_ERRORS {
        CompleteEndsWell(b.(required := NO_EVENTS, currentEvents := NO_EVENTS, currentErrors := NO_ERRORS), Failed, lines);
      } else {
        CompleteEndsWell(b, if b.status != MoreProcessing then Success else b.status, lines);
      }
    }
  }

  lemma CompletionEndsWell(s: Ext, a: Action)
    requires Inv(s) && CanDo(s, a)
    ensures Do(s, a).completed in {s.completed, s.completed + 1}
    ensures Do(s, a).completed == s.completed + 1 ==> EndsWell(s, LinesOf(a), Do(s, a))
  {
    hide Dpc;
    hide Complete;
    hide FetchPio;
    match a
    case DoIssue(_, _, _) =>
    case DoStart(local, _, lines) =>
      if s.command.transfer == SgDma { CompleteEndsWell(BeganPhase(s, local).(remaining := 0), Success, lines); }
      else { FetchCompletesNothing(s, a.local, a.fifo, lines); }
    case DoFinish(lines) => if s.remaining == 0 { CompleteEndsWell(s.(starting := None), Success, lines); }
    case DoDpc(events, errors, lines) => DpcEndsWell(s, events, errors, lines);
    case DoLocalIsr(_, _) =>
    case DoLocalDpc(lines) => DpcEndsWell(s, s.currentEvents, s.currentErrors, lines);
    case DoWorker(_, _) =>
    case DoReset =>
  }

  function BeganPhase(s: Ext, local: bool): Ext {
    s.(phase := TransferPhase, outstanding := true, localPending := s.localPending || local, issued := s.issued + 1, completions := 0)
  }

  lemma FetchCompletesNothing(s: Ext, local: bool, fifo: seq<u32>, lines: Lines)
    requires s.command.transfer == Pio
    ensures StartTransfer(s, local, fifo, lines).completed == s.completed
    ensures StartTransfer(s, local, fifo, lines).busyQueued == s.busyQueued
  {
  }

  /** What waits for the work item is a success in need of idle lines. */
  lemma {:induction false} QueuedWaits(s: Ext, actions: seq<Action>)
    requires Inv(s) && (s.busyQueued ==> WaitsForIdle(s))
    ensures Run(s, actions).busyQueued ==> WaitsForIdle(Run(s, actions))
    decreases |actions|
  {
    hide Inv;
    hide Do;
    hide CanDo;
    if actions != [] {
      if CanDo(s, actions[0]) {
        StepKeeps(s, actions[0]);
        StepQueues(s, actions[0]);
      }
      QueuedWaits(Next(s, actions[0]), actions[1..]);
    }
  }

  lemma StepQueues(s: Ext, a: Action)
    requires Inv(s) && CanDo(s, a) && (s.busyQueued ==> WaitsForIdle(s))
    ensures Do(s, a).busyQueued ==> WaitsForIdle(Do(s, a))
  {
    hide Dpc;
    hide Complete;
    hide FetchPio;
    match a
    case DoIssue(_, _, _) =>
    case DoStart(local, fifo, lines) =>
      if s.command.transfer == SgDma { CompleteEndsWell(BeganPhase(s, local).(remaining := 0), Success, lines); }
      else { FetchCompletesNothing(s, local, fifo, lines); }
    case DoFinish(lines) => if s.remaining == 0 { CompleteEndsWell(s.(starting := None), Success, lines); }
    case DoDpc(events, errors, lines) => DpcEndsWell(s, events, errors, lines);
    case DoLocalIsr(_, _) =>
    case DoLocalDpc(lines) => DpcEndsWell(s, s.currentEvents, s.currentErrors, lines);
    case DoWorker(_, _) =>
    case DoReset =>
  }

  /** Over every run: how phases complete, and what a work item finds. */
  lemma EveryCompletionEndsWell(fifoDepth: nat, before: seq<Action>, a: Action)
    requires CanDo(Run(Idle(fifoDepth), before), a)
    ensures var s := Run(Idle(fifoDepth), before);
      Do(s, a).completed == s.completed + 1 ==> EndsWell(s, LinesOf(a), Do(s, a))
    ensures var s := Run(Idle(fifoDepth), before);
      s.busyQueued ==> s.status == Success && s.outstanding && (s.command.write || s.command.busyResponse)
  {
    RunKeeps(Idle(fifoDepth), before);
    QueuedWaits(Idle(fifoDepth), before);
    CompletionEndsWell(Run(Idle(fifoDepth), before), a);
  }

  /** Over every run: a work item whose wait fails completes the request with failure and keeps it for the reset;
      one whose wait succeeds on idle lines completes it with success and releases it. */
  lemma WorkerEnds(fifoDepth: nat, before: seq<Action>, lines: Lines)
    requires Run(Idle(fifoDepth), before).busyQueued
    ensures var s := Run(Idle(fifoDepth), before);
      var t := Worker(s, false, lines);
      t.completions == 1 && t.completed == s.completed + 1 && t.status == Failed && t.outstanding && !t.busyQueued
    ensures var s := Run(Idle(fifoDepth), before);
      var t := Worker(s, true, lines);
      if lines.busy then t.busyQueued && t.completions == 0 && t.completed == s.completed
      else t.completions == 1 && !t.outstanding && !t.busyQueued && t.status == if lines.inserted then Success else Failed
  {
    RunKeeps(Idle(fifoDepth), before);
    QueuedWaits(Idle(fifoDepth), before);
    hide Run;
  }

  // ---- success ----

  /** The events that the actions brought, one after the other. */
  function Brought(actions: seq<Action>): Events
    decreases |actions|
  {
    if actions == [] then NO_EVENTS
    else
      var a, e := actions[|actions| - 1], Brought(actions[..|actions| - 1]);
      match a
      case DoDpc(events, _, _) => Or(e, events)
      case DoLocalIsr(events, _) => Or(e, events)
      case _ => e
  }

  predicate Within(a: Events, b: Events) {
    && (a.response ==> b.response) && (a.rwEnd ==> b.rwEnd) && (a.bufferFull ==> b.bufferFull) && (a.bufferEmpty ==> b.bufferEmpty)
  }

  /** What the command phase of a request stands for. */
  predicate CommandSeen(c: Command, seen: Events) {
    && seen.response
    && (c.transfer == SgDma ==> seen.rwEnd)
    && (c.transfer == Pio ==> if c.write then seen.bufferEmpty else seen.bufferFull)
  }

  predicate Succeeded(s: Ext) { (s.completions == 1 || s.busyQueued) && s.status in {Success, MoreProcessing} }

  /** A transfer phase of a PIO request whose data is moved, and that nobody has completed yet. */
  predicate AwaitsEnd(s: Ext) {
    s.command.transfer == Pio && s.phase == TransferPhase && InPhase(s) && s.status == Success
  }

  /** Nothing counts as done that was not seen. */
  predicate OnlySeen(s: Ext, seen: Events) {
    && Inv(s) && Within(s.currentEvents, seen) && (s.starting.Some? ==> Within(s.starting.value, seen))
    && (InPhase(s) ==> s.status != Failed) && (s.busyQueued ==> s.status == Success)
    && (InPhase(s) && s.phase == CommandPhase ==> CommandSeen(s.command, Or(seen, s.required)))
    && (s.phase == TransferPhase || Succeeded(s) ==> CommandSeen(s.command, seen))
    && (AwaitsEnd(s) ==> s.required.rwEnd || seen.rwEnd)
    && (s.command.transfer == Pio && s.phase == TransferPhase && Succeeded(s) && s.status == Success ==> seen.rwEnd)
    && (s.starting.Some? ==> s.phase == TransferPhase && s.command.transfer == Pio)
    && (s.phase == TransferPhase ==> s.status != Unset)
  }

  lemma IssueSeesNothing(s: Ext, c: Command, local: bool, memory: seq<u32>)
    requires Inv(s) && CanDo(s, DoIssue(c, local, memory))
    ensures OnlySeen(Issue(s, c, local, memory), NO_EVENTS)
  {
  }

  /** The completion of a phase that has seen its events, or of one that fails. */
  lemma CompleteSees(s: Ext, status: Status, lines: Lines, seen: Events)
    requires OnlySeen(s, seen) && InPhase(s) && s.outstanding && s.required == NO_EVENTS && s.issued >= 1
    requires status == Failed || status == Success || (status == MoreProcessing && s.status == MoreProcessing)
    requires status == Success && s.phase == TransferPhase && s.command.transfer == Pio ==> s.status == Success
    ensures OnlySeen(Complete(s, status, lines), seen)
  {
    CompleteKeeps(s, status, lines);
    assert Or(seen, NO_EVENTS) == seen;
  }

  /** A phase that is given up. */
  lemma FailSees(s: Ext, lines: Lines, seen: Events)
    requires OnlySeen(s, seen) && InPhase(s) && s.outstanding && s.issued >= 1
    ensures OnlySeen(Complete(s.(required := NO_EVENTS, currentEvents := NO_EVENTS, currentErrors := NO_ERRORS), Failed, lines), seen)
  {
    CompleteKeeps(s.(required := NO_EVENTS, currentEvents := NO_EVENTS, currentErrors := NO_ERRORS), Failed, lines);
  }

  lemma KeptSees(s: Ext, events: Events, errors: Errors, seen: Events)
    requires OnlySeen(s, seen)
    ensures OnlySeen(LocalIsr(s, events, errors), Or(seen, events))
  {
  }

  lemma ClearedSees(s: Ext, events: Events, seen: Events)
    requires OnlySeen(s, seen) && Within(events, seen)
    ensures OnlySeen(s.(required := Without(s.required, events)), seen)
  {
  }

  lemma DpcSees(s: Ext, events: Events, errors: Errors, lines: Lines, seen: Events)
    requires OnlySeen(s, seen)
    ensures OnlySeen(Dpc(s, events, errors, lines), Or(seen, events))
  {
    hide OnlySeen;
    hide Complete;
    hide StillWaits;
    var all := Or(seen, events);
    SeesMore(s, seen, events);
    if (events != NO_EVENTS || errors != NO_ERRORS) && s.required != NO_EVENTS {
      var a := LocalIsr(s, events, errors);
      KeptSees(s, events, errors, seen);
      if a.outstanding {
        var b := a.(required := Without(a.required, events));
        ClearedSees(a, events, all);
        RequiredIsInPhase(s, seen);
        if b.currentErrors != NO_ERRORS {
          FailSees(b, lines, all);
        } else if b.required == NO_EVENTS {
          CompleteSees(b, if b.status != MoreProcessing then Success else b.status, lines, all);
        }
      }
    }
  }

  lemma RequiredIsInPhase(s: Ext, seen: Events)
    requires OnlySeen(s, seen) && s.required != NO_EVENTS
    ensures InPhase(s) && s.issued >= 1 && s.status != Failed && (s.phase == TransferPhase ==> s.status != Unset)
  {
  }

  lemma StartSees(s: Ext, local: bool, fifo: seq<u32>, lines: Lines, seen: Events)
    requires OnlySeen(s, seen) && CanDo(s, DoStart(local, fifo, lines))
    ensures OnlySeen(StartTransfer(s, local, fifo, lines), seen)
  {
    hide Stored;
    hide WordsAt;
    hide Complete;
    StepKeeps(s, DoStart(local, fifo, lines));
    if s.command.transfer == SgDma {
      var b := BeganPhase(s, local).(remaining := 0);
      CompleteEndsWell(b, Success, lines);
      CompleteKeepsEvents(b, lines);
    }
  }

  lemma CompleteKeepsEvents(s: Ext, lines: Lines)
    requires s.completions == 0 && !s.busyQueued
    ensures var t := Complete(s, Success, lines);
      && t.currentEvents == s.currentEvents && t.starting == s.starting && t.phase == s.phase && !InPhase(t)
      && t.status in {Success, Failed} && (t.busyQueued ==> t.status == Success)
  {
  }

  lemma FinishSees(s: Ext, lines: Lines, seen: Events)
    requires OnlySeen(s, seen) && s.starting.Some?
    ensures OnlySeen(FinishPio(s, lines), seen)
  {
    StepKeeps(s, DoFinish(lines));
  }

  lemma StepSees(s: Ext, a: Action, seen: Events)
    requires OnlySeen(s, seen) && CanDo(s, a) && !a.DoIssue?
    ensures OnlySeen(Do(s, a), match a case DoDpc(e, _, _) => Or(seen, e) case DoLocalIsr(e, _) => Or(seen, e) case _ => seen)
  {
    hide Dpc;
    hide StartTransfer;
    hide FinishPio;
    StepKeeps(s, a);
    match a
    case DoStart(local, fifo, lines) => StartSees(s, local, fifo, lines, seen);
    case DoFinish(lines) => FinishSees(s, lines, seen);
    case DoDpc(events, errors, lines) => DpcSees(s, events, errors, lines, seen);
    case DoLocalIsr(events, _) =>
    case DoLocalDpc(lines) =>
      DpcSees(s, s.currentEvents, s.currentErrors, lines, seen);
      assert Or(seen, s.currentEvents) == seen;
    case DoWorker(_, _) =>
    case DoReset =>
  }

  lemma SeesMore(s: Ext, seen: Events, more: Events)
    requires OnlySeen(s, seen)
    ensures OnlySeen(s, Or(seen, more))
  {
  }

  lemma {:induction false} RunSees(s: Ext, actions: seq<Action>)
    requires OnlySeen(s, NO_EVENTS) && SameRequest(actions)
    ensures OnlySeen(Run(s, actions), Brought(actions))
    decreases |actions|
  {
    hide OnlySeen;
    hide Do;
    hide CanDo;
    hide Or;
    if actions != [] {
      var n := |actions| - 1;
      var init, last := actions[..n], actions[n];
      assert actions == init + [last] && last in actions && forall a <- init :: a in actions;
      RunSees(s, init);
      RunConcat(s, init, [last]);
      assert [last][1..] == [] && Run(Next(Run(s, init), last), []) == Next(Run(s, init), last);
      if CanDo(Run(s, init), last) {
        StepSees(Run(s, init), last, Brought(init));
      } else {
        match last
        case DoDpc(e, _, _) => SeesMore(Run(s, init), Brought(init), e);
        case DoLocalIsr(e, _) => SeesMore(Run(s, init), Brought(init), e);
        case _ =>
      }
    }
  }

  /** Success, event by event: whatever else happens, a request whose command phase succeeds has had its
      response, with DMA also the end of its transfer, with PIO its first data request; and a PIO request whose
      last phase succeeds has had the end of its transfer. */
  lemma SuccessWasEarned(s: Ext, c: Command, local: bool, memory: seq<u32>, actions: seq<Action>)
    requires Inv(s) && CanDo(s, DoIssue(c, local, memory)) && SameRequest(actions)
    ensures var t := Run(Issue(s, c, local, memory), actions);
      var e := Brought(actions);
      (t.completions == 1 || t.busyQueued) && t.status in {Success, MoreProcessing} ==>
        && e.response
        && (c.transfer == SgDma ==> e.rwEnd)
        && (c.transfer == Pio && !c.write ==> e.bufferFull) && (c.transfer == Pio && c.write ==> e.bufferEmpty)
        && (c.transfer == Pio && t.phase == TransferPhase && t.status == Success ==> e.rwEnd)
  {
    hide Run;
    hide Brought;
    IssueSeesNothing(s, c, local, memory);
    RunSees(Issue(s, c, local, memory), actions);
    CommandStays(Issue(s, c, local, memory), actions);
  }

  lemma {:induction false} CommandStays(s: Ext, actions: seq<Action>)
    requires SameRequest(actions)
    ensures Run(s, actions).command == s.command
    decreases |actions|
  {
    hide CanDo;
    hide Do;
    if actions != [] {
      assert actions[0] in actions;
      if CanDo(s, actions[0]) { StepStays(s, actions[0]); }
      CommandStays(Next(s, actions[0]), actions[1..]);
    }
  }

  lemma StepStays(s: Ext, a: Action)
    requires CanDo(s, a) && !a.DoIssue?
    ensures Do(s, a).command == s.command
  {
    hide Dpc;
    hide FetchPio;
    match a
    case DoStart(_, fifo, lines) => FetchStays(s, fifo);
    case DoFinish(_) =>
    case DoDpc(events, errors, lines) => DpcStays(s, events, errors, lines);
    case DoLocalIsr(_, _) =>
    case DoLocalDpc(lines) => DpcStays(s, s.currentEvents, s.currentErrors, lines);
    case DoWorker(_, _) =>
    case DoReset =>
  }

  lemma FetchStays(s: Ext, fifo: seq<u32>)
    ensures forall t: Ext :: t.command == s.command ==> FetchPio(t, fifo).command == s.command
  {
  }

  lemma DpcStays(s: Ext, events: Events, errors: Errors, lines: Lines)
    ensures Dpc(s, events, errors, lines).command == s.command
  {
    hide Without;
    hide Or;
    hide StillWaits;
  }

  /** The transfer phase of a DMA request has nothing left to do. */
  lemma DmaEndsAtOnce(s: Ext, local: bool, fifo: seq<u32>, lines: Lines)
    requires Inv(s) && s.command.transfer == SgDma && CanDo(s, DoStart(local, fifo, lines)) && lines.inserted
    ensures var t := StartTransfer(s, local, fifo, lines);
      && t.status == Success && t.remaining == 0 && t.phase == TransferPhase
      && if lines.busy && (s.command.write || s.command.busyResponse) then t.busyQueued && t.outstanding
         else t.completions == 1 && !t.outstanding
  {
  }

  /** The FIFO threshold is the most that half the FIFO holds and, for PIO, the data. */
  lemma ThresholdFits(c: Command, fifoDepth: nat)
    ensures var words := Threshold(c, fifoDepth);
      && 2 * words <= fifoDepth && (c.transfer == Pio ==> 4 * words <= c.length)
      && (2 * (words + 1) > fifoDepth || (c.transfer == Pio && 4 * (words + 1) > c.length))
  {
  }

  /** A local request stays marked as such from its issue to its completion. */
  lemma LocalIsMarked(s: Ext, a: Action)
    requires Inv(s) && CanDo(s, a)
    ensures (a.DoIssue? && a.local) || (a.DoStart? && a.local && s.command.transfer == Pio) ==> Do(s, a).localPending
    ensures s.localPending && Do(s, a).completed == s.completed ==> Do(s, a).localPending
  {
  }
}
