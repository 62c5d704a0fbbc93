/** PIO transfers of the dwcmshc SD driver: the data goes in chunks of the FIFO threshold, one for each data
    request of the controller, each in a phase of its own. The results are about every error-free run of a
    request: DPCs with any events, busy lines, work items and, between the two halves of starting a phase,
    whatever else may come. */
module SdPio {
  import opened Common
  import opened Machine32
  import opened SdRequest

  /** No error is reported, the card stays where it is and gets idle in time; no new request, no reset. */
  predicate ErrorFree(a: Action) {
    match a
    case DoStart(_, _, lines) => lines.inserted
    case DoFinish(lines) => lines.inserted
    case DoDpc(_, errors, lines) => errors == NO_ERRORS && lines.inserted
    case DoLocalIsr(_, errors) => errors == NO_ERRORS
    case DoLocalDpc(lines) => lines.inserted
    case DoWorker(idle, lines) => idle && lines.inserted
    case DoIssue(_, _, _) => false
    case DoReset => false
  }

  predicate AllErrorFree(actions: seq<Action>) { forall a <- actions :: ErrorFree(a) }

  /** The bytes that have passed the data port. */
  function Moved(s: Ext): nat { 4 * |s.port| }

  /** `n` is a number of chunks. */
  ghost predicate Chunks(n: nat, chunk: nat) { exists k: nat :: n == Times(k, chunk) }

  lemma ChunksNext(n: nat, chunk: nat)
    requires Chunks(n, chunk)
    ensures Chunks(n + chunk, chunk)
  {
    var k: nat :| n == Times(k, chunk);
    Distributes(k, 1, chunk);
    One(chunk);
    assert Times(k + 1, chunk) == n + chunk;
  }

  /** The length is a whole number of chunks. */
  predicate Whole(c: Command, fifoDepth: nat) {
    var chunk := 4 * Threshold(c, fifoDepth);
    if chunk == 0 then c.length == 0 else c.length % chunk == 0
  }

  lemma WholeIsChunks(n: nat, chunk: nat)
    ensures Chunks(n, chunk) <==> if chunk == 0 then n == 0 else n % chunk == 0
  {
    if chunk == 0 {
      assert Times(0, 0) == 0;
    } else {
      QuotientChunks(n, chunk);
      if Chunks(n, chunk) {
        hide Times;
        var k: nat, q: nat :| n == Times(k, chunk) && q == n / chunk;
        Distributes(q, 1, chunk);
        One(chunk);
        Distributes(k, 1, chunk);
        Cancel(k, q + 1, chunk);
        if k < q { Scale(k + 1, q, chunk); }
      }
    }
  }

  lemma QuotientChunks(n: nat, chunk: nat)
    requires chunk > 0
    ensures n == Times(n / chunk, chunk) + n % chunk
  {
  }

  /** A number of chunks that is less than another one is less by a chunk. */
  lemma ChunkFits(n: nat, m: nat, chunk: nat)
    requires Chunks(n, chunk) && Chunks(m, chunk) && n < m
    ensures n + chunk <= m
  {
    var j: nat :| n == Times(j, chunk);
    var k: nat :| m == Times(k, chunk);
    Cancel(j, k, chunk);
    Scale(j + 1, k, chunk);
    Distributes(j, 1, chunk);
    One(chunk);
  }

  /** A request no longer than the FIFO's share is one chunk if it is made of words, and else uneven. */
  lemma ShortIsWhole(c: Command, fifoDepth: nat)
    requires c.transfer == Pio && c.length / 4 <= fifoDepth / 2
    ensures Whole(c, fifoDepth) <==> c.length % 4 == 0
  {
    var n, chunk := c.length, 4 * Threshold(c, fifoDepth);
    if chunk > 0 {
      assert n == chunk + n % 4;
      AtMostTwice(n, chunk);
    }
  }

  lemma AtMostTwice(n: nat, chunk: nat)
    requires chunk <= n < 2 * chunk
    ensures n % chunk == n - chunk
  {
    QuotientChunks(n, chunk);
    if n / chunk != 1 {
      ZeroTimes(chunk);
      Scale(2, n / chunk, chunk);
    }
  }

  // ---- where a PIO request stands ----

  /** A data request, and for the command its response, is still to come. */
  predicate Waits(s: Ext) {
    && s.starting.None? && s.required != NO_EVENTS && !s.required.rwEnd && s.offset == Moved(s) && s.completions == 0
    && if s.phase == CommandPhase then s.status == Unset && Moved(s) == 0 else s.status == MoreProcessing && s.remaining > 0
  }

  /** The phase is done and the next one is not started. */
  predicate Between(s: Ext) {
    && s.starting.None? && s.required == NO_EVENTS && s.offset == Moved(s)
    && if s.phase == CommandPhase then s.status == Success && Moved(s) == 0 && (s.completions == 1 || s.busyQueued)
       else s.status == MoreProcessing && s.remaining > 0 && s.completions == 1
  }

  /** A chunk has been moved, and what follows is not decided. */
  predicate Starts(s: Ext) {
    s.starting.Some? && s.phase == TransferPhase && s.offset + Chunk(s) == Moved(s) && s.status in {Success, MoreProcessing}
  }

  /** All is moved, and the end of the transfer is still to come. */
  predicate AwaitsEnd(s: Ext) {
    && s.starting.None? && s.required == NO_EVENTS.(rwEnd := true) && s.remaining == 0 && s.phase == TransferPhase
    && s.status == Success && s.completions == 0
  }

  /** All is moved, and the request is complete or will be when the card is idle. */
  predicate Done(s: Ext) {
    && s.starting.None? && s.required == NO_EVENTS && s.remaining == 0 && s.phase == TransferPhase
    && s.status == Success && (s.completions == 1 || s.busyQueued)
  }

  predicate Stands(s: Ext) { Waits(s) || Between(s) || Starts(s) || AwaitsEnd(s) || Done(s) }

  /** What passed the port is what lies in memory: a read has filled it from the start with what came, and a
      write has sent it from the start and changed nothing. */
  predicate Copied(s: Ext, before: seq<u32>) {
    && |s.port| <= |before|
    && s.memory == (if s.command.write then before else s.port + before[|s.port|..])
    && (s.command.write ==> s.port == before[..|s.port|])
  }

  /** The invariant of error-free runs: chunks of the request's size, counted off the length in 32 bits. If
      the length is a whole number of them and the buffer holds it, no more is moved, and to the right place. */
  ghost predicate OnTrack(s: Ext, before: seq<u32>) {
    && Inv(s) && s.command.transfer == Pio && s.command.length < TWO_32 && s.threshold == Threshold(s.command, s.fifoDepth)
    && s.currentErrors == NO_ERRORS && (s.completions == 0 ==> s.outstanding)
    && Chunks(Moved(s), Chunk(s)) && s.remaining == Wrap32(s.command.length - Moved(s)) && Stands(s)
    && (Whole(s.command, s.fifoDepth) ==>
          && Moved(s) <= s.command.length
          && (s.command.length <= 4 * |before| ==> Copied(s, before)))
  }

  lemma IssueIsOnTrack(s: Ext, c: Command, local: bool, before: seq<u32>)
    requires Inv(s) && c.transfer == Pio && CanDo(s, DoIssue(c, local, before))
    ensures OnTrack(Issue(s, c, local, before), before) && Waits(Issue(s, c, local, before))
  {
    var t := Issue(s, c, local, before);
    StepKeeps(s, DoIssue(c, local, before));
    ZeroTimes(Chunk(t));
    assert Moved(t) == Times(0, Chunk(t));
    assert [] + before[0..] == before;
  }

  /** What does not change while nothing is moved. */
  predicate SameData(s: Ext, t: Ext) {
    && t.command == s.command && t.fifoDepth == s.fifoDepth && t.threshold == s.threshold && t.remaining == s.remaining
    && t.memory == s.memory && t.port == s.port
  }

  lemma SameDataOnTrack(s: Ext, t: Ext, before: seq<u32>)
    requires OnTrack(s, before) && SameData(s, t) && Inv(t) && Stands(t)
    requires t.currentErrors == NO_ERRORS && (t.completions == 0 ==> t.outstanding)
    ensures OnTrack(t, before)
  {
  }

  /** Where a DPC without errors leads. */
  lemma DpcMoves(s: Ext, events: Events, lines: Lines)
    requires Inv(s) && Stands(s) && s.currentErrors == NO_ERRORS && lines.inserted && (s.completions == 0 ==> s.outstanding)
    ensures var t := Dpc(s, events, NO_ERRORS, lines);
      && SameData(s, t) && t.currentErrors == NO_ERRORS && (t.completions == 0 ==> t.outstanding)
      && t.starting == s.starting && t.phase == s.phase
      && (s.required == NO_EVENTS ==> t == s)
      && (Waits(s) ==> t.currentEvents == Or(s.currentEvents, events) && (Waits(t) || Between(t)))
      && (AwaitsEnd(s) ==> if events.rwEnd then Done(t) else AwaitsEnd(t))
  {
  }

  lemma DpcStaysOnTrack(s: Ext, events: Events, lines: Lines, before: seq<u32>)
    requires OnTrack(s, before) && lines.inserted
    ensures OnTrack(Dpc(s, events, NO_ERRORS, lines), before)
  {
    hide Dpc;
    hide Stands;
    hide Whole;
    DpcMoves(s, events, lines);
    DpcKeeps(s, events, NO_ERRORS, lines);
    DpcStands(s, events, lines);
    SameDataOnTrack(s, Dpc(s, events, NO_ERRORS, lines), before);
  }

  lemma DpcStands(s: Ext, events: Events, lines: Lines)
    requires Inv(s) && Stands(s) && s.currentErrors == NO_ERRORS && lines.inserted && (s.completions == 0 ==> s.outstanding)
    ensures Stands(Dpc(s, events, NO_ERRORS, lines))
  {
    hide Dpc;
    DpcMoves(s, events, lines);
  }

  lemma WorkerStaysOnTrack(s: Ext, lines: Lines, before: seq<u32>)
    requires OnTrack(s, before) && lines.inserted && s.busyQueued
    ensures OnTrack(Worker(s, true, lines), before)
    ensures Done(s) ==> Done(Worker(s, true, lines))
    ensures Between(s) ==> Between(Worker(s, true, lines)) && Worker(s, true, lines).currentEvents == s.currentEvents
  {
    hide Whole;
    StepKeeps(s, DoWorker(true, lines));
    SameDataOnTrack(s, Worker(s, true, lines), before);
  }

  lemma FinishStaysOnTrack(s: Ext, lines: Lines, before: seq<u32>)
    requires OnTrack(s, before) && lines.inserted && s.starting.Some?
    ensures OnTrack(FinishPio(s, lines), before)
    ensures var t := FinishPio(s, lines);
      if s.remaining > 0 then Waits(t) && t.currentEvents == s.currentEvents && t.required == BufferEvent(s.command)
      else if s.starting.value.rwEnd then Done(t) else AwaitsEnd(t)
  {
    hide Whole;
    StepKeeps(s, DoFinish(lines));
    SameDataOnTrack(s, FinishPio(s, lines), before);
  }

  lemma StoredAtEnd(port: seq<u32>, before: seq<u32>, words: seq<u32>)
    requires |port| + |words| <= |before|
    ensures Stored(port + before[|port|..], |port|, words) == (port + words) + before[|port + words|..]
  {
  }

  lemma SentFromEnd(before: seq<u32>, at: nat, count: nat)
    requires at + count <= |before|
    ensures before[..at] + WordsAt(before, at, count) == before[..at + count]
  {
  }

  lemma FetchCopies(s: Ext, fifo: seq<u32>, before: seq<u32>)
    requires Copied(s, before) && s.offset == Moved(s) && |fifo| == s.threshold && |s.port| + s.threshold <= |before|
    ensures Copied(FetchPio(s, fifo), before)
  {
    hide Stored;
    hide WordsAt;
    if s.command.write {
      SentFromEnd(before, |s.port|, s.threshold);
    } else {
      StoredAtEnd(s.port, before, fifo);
    }
  }

  lemma WrapLess(n: int, d: nat)
    ensures Wrap32(Wrap32(n) - d) == Wrap32(n - d)
  {
  }

  /** What a fetch does from between two phases. */
  lemma FetchMoves(s: Ext, local: bool, fifo: seq<u32>, lines: Lines)
    requires Inv(s) && Stands(s) && CanDo(s, DoStart(local, fifo, lines)) && s.command.transfer == Pio
    ensures var t := StartTransfer(s, local, fifo, lines);
      && Between(s) && Starts(t) && Moved(t) == Moved(s) + Chunk(s) && t.outstanding && t.currentErrors == s.currentErrors
      && t.command == s.command && t.fifoDepth == s.fifoDepth && t.threshold == s.threshold
      && t.remaining == Wrap32(s.remaining - Chunk(s))
      && t.currentEvents == NO_EVENTS && t.starting == Some(s.currentEvents)
  {
    hide Stored;
    hide WordsAt;
    hide Wrap32;
  }

  lemma StartStaysOnTrack(s: Ext, local: bool, fifo: seq<u32>, lines: Lines, before: seq<u32>)
    requires OnTrack(s, before) && CanDo(s, DoStart(local, fifo, lines))
    ensures OnTrack(StartTransfer(s, local, fifo, lines), before)
  {
    hide Chunks;
    hide StartTransfer;
    hide Stands;
    hide Wrap32;
    hide Copied;
    hide Whole;
    var t := StartTransfer(s, local, fifo, lines);
    StepKeeps(s, DoStart(local, fifo, lines));
    FetchMoves(s, local, fifo, lines);
    TransferStands(t);
    ChunksNext(Moved(s), Chunk(s));
    WrapLess(s.command.length - Moved(s), Chunk(s));
    if Whole(s.command, s.fifoDepth) {
      RoomForChunk(s, before);
      if s.command.length <= 4 * |before| { TransferCopies(s, local, fifo, lines, before); }
    }
  }

  lemma TransferStands(t: Ext)
    requires Starts(t)
    ensures Stands(t)
  {
  }

  /** Before a phase of a whole-chunk transfer there is a chunk to be moved. */
  lemma RoomForChunk(s: Ext, before: seq<u32>)
    requires OnTrack(s, before) && Between(s) && Whole(s.command, s.fifoDepth)
    ensures Moved(s) + Chunk(s) <= s.command.length
  {
    WholeIsChunks(s.command.length, Chunk(s));
    if s.phase == TransferPhase { ChunkFits(Moved(s), s.command.length, Chunk(s)); }
  }

  lemma TransferCopies(s: Ext, local: bool, fifo: seq<u32>, lines: Lines, before: seq<u32>)
    requires Copied(s, before) && s.offset == Moved(s) && CanDo(s, DoStart(local, fifo, lines))
    requires s.command.transfer == Pio && |s.port| + s.threshold <= |before|
    ensures Copied(StartTransfer(s, local, fifo, lines), before)
  {
    hide FetchPio;
    hide Copied;
    var a := s.(phase := TransferPhase, outstanding := true, localPending := s.localPending || local,
                issued := s.issued + 1, completions := 0);
    assert Copied(a, before) by { CopiedSame(s, a, before); }
    FetchCopies(a, fifo, before);
  }

  lemma CopiedSame(s: Ext, t: Ext, before: seq<u32>)
    requires Copied(s, before) && t.memory == s.memory && t.port == s.port && t.command == s.command
    ensures Copied(t, before)
  {
  }

  lemma IsrStaysOnTrack(s: Ext, events: Events, before: seq<u32>)
    requires OnTrack(s, before) && s.localPending
    ensures OnTrack(LocalIsr(s, events, NO_ERRORS), before)
  {
    hide Whole;
    SameDataOnTrack(s, LocalIsr(s, events, NO_ERRORS), before);
  }

  lemma StepStaysOnTrack(s: Ext, a: Action, before: seq<u32>)
    requires OnTrack(s, before) && CanDo(s, a) && ErrorFree(a)
    ensures OnTrack(Do(s, a), before)
    ensures Do(s, a).command == s.command && Do(s, a).fifoDepth == s.fifoDepth
  {
    hide Whole;
    hide Stands;
    hide Chunks;
    hide Copied;
    hide Inv;
    hide Dpc;
    hide FinishPio;
    hide StartTransfer;
    hide Threshold;
    match a
    case DoStart(local, fifo, lines) =>
      StartStaysOnTrack(s, local, fifo, lines, before);
      StartKeepsCommand(s, local, fifo, lines);
    case DoFinish(lines) =>
      FinishStaysOnTrack(s, lines, before);
      FinishKeepsCommand(s, lines);
    case DoDpc(events, _, lines) =>
      DpcStaysOnTrack(s, events, lines, before);
      DpcKeepsCommand(s, events, lines);
    case DoLocalIsr(events, _) => IsrStaysOnTrack(s, events, before);
    case DoLocalDpc(lines) =>
      DpcStaysOnTrack(s, s.currentEvents, lines, before);
      DpcKeepsCommand(s, s.currentEvents, lines);
    case DoWorker(_, lines) => WorkerStaysOnTrack(s, lines, before);
  }

  lemma DpcKeepsCommand(s: Ext, events: Events, lines: Lines)
    ensures Dpc(s, events, NO_ERRORS, lines).command == s.command && Dpc(s, events, NO_ERRORS, lines).fifoDepth == s.fifoDepth
  {
  }

  lemma StartKeepsCommand(s: Ext, local: bool, fifo: seq<u32>, lines: Lines)
    ensures var t := StartTransfer(s, local, fifo, lines); t.command == s.command && t.fifoDepth == s.fifoDepth
  {
  }

  lemma FinishKeepsCommand(s: Ext, lines: Lines)
    requires s.starting.Some?
    ensures FinishPio(s, lines).command == s.command && FinishPio(s, lines).fifoDepth == s.fifoDepth
  {
  }

  lemma {:induction false} RunStaysOnTrack(s: Ext, actions: seq<Action>, before: seq<u32>)
    requires OnTrack(s, before) && AllErrorFree(actions)
    ensures OnTrack(Run(s, actions), before)
    ensures Run(s, actions).command == s.command && Run(s, actions).fifoDepth == s.fifoDepth
    decreases |actions|
  {
    hide OnTrack;
    hide Do;
    hide CanDo;
    if actions != [] {
      assert actions[0] in actions;
      if CanDo(s, actions[0]) { StepStaysOnTrack(s, actions[0], before); }
      RunStaysOnTrack(Next(s, actions[0]), actions[1..], before);
    }
  }

  // ---- what every error-free run moves ----

  /** However the events, the busy lines, the work item and the phases follow on each other: what has been
      moved is a number of chunks, and every phase starts at the byte where the one before it ended. If the
      length is a whole number of chunks, the transfer never passes its end, has copied every word so far, and
      is complete only when it has copied all. */
  lemma ChunksTile(s: Ext, c: Command, local: bool, before: seq<u32>, actions: seq<Action>)
    requires Inv(s) && c.transfer == Pio && CanDo(s, DoIssue(c, local, before)) && AllErrorFree(actions)
    ensures var t := Run(Issue(s, c, local, before), actions);
      && Chunks(Moved(t), 4 * Threshold(c, s.fifoDepth)) && t.remaining == Wrap32(c.length - Moved(t))
      && (t.completions == 1 && t.status in {Success, MoreProcessing} && t.remaining > 0 ==> t.offset == Moved(t))
    ensures var t := Run(Issue(s, c, local, before), actions);
      Whole(c, s.fifoDepth) ==>
        && Moved(t) <= c.length && t.remaining == c.length - Moved(t)
        && (c.length <= 4 * |before| ==> Copied(t, before))
        && (t.completions == 1 && t.phase == TransferPhase && t.status == Success ==> Moved(t) == c.length)
  {
    hide OnTrack;
    var u := Issue(s, c, local, before);
    IssueIsOnTrack(s, c, local, before);
    RunStaysOnTrack(u, actions, before);
    OnTrackFacts(Run(u, actions), before);
    StandsAtEnd(Run(u, actions), before);
    if Whole(c, s.fifoDepth) { WholeOnTrack(Run(u, actions), before); }
  }

  lemma StandsAtEnd(t: Ext, before: seq<u32>)
    requires OnTrack(t, before)
    ensures Chunks(Moved(t), Chunk(t))
    ensures t.completions == 1 && t.status in {Success, MoreProcessing} && t.remaining > 0 ==> t.offset == Moved(t)
    ensures t.completions == 1 && t.phase == TransferPhase && t.status == Success ==> t.remaining == 0
  {
    hide Chunks;
    hide Copied;
    hide Whole;
    hide Wrap32;
  }

  lemma WholeOnTrack(t: Ext, before: seq<u32>)
    requires OnTrack(t, before) && Whole(t.command, t.fifoDepth)
    ensures Moved(t) <= t.command.length && t.remaining == t.command.length - Moved(t)
    ensures t.command.length <= 4 * |before| ==> Copied(t, before)
  {
    hide Chunks;
    hide Copied;
    hide Whole;
    hide Stands;
  }

  // ---- which lengths a chain can end on ----

  /** The data request, and the phase after it with nothing else in between. */
  function OneChunk(s: Ext, fifo: seq<u32>): seq<Action> {
    [DoDpc(s.required, NO_ERRORS, QUIET), DoStart(false, fifo, QUIET), DoFinish(QUIET)]
  }

  lemma OneChunkMoves(s: Ext, fifo: seq<u32>, before: seq<u32>)
    requires OnTrack(s, before) && Waits(s) && |fifo| == s.threshold
    ensures var t := Run(s, OneChunk(s, fifo));
      && AllErrorFree(OneChunk(s, fifo)) && OnTrack(t, before) && Moved(t) == Moved(s) + Chunk(s) && t.phase == TransferPhase
      && t.command == s.command && t.fifoDepth == s.fifoDepth && t.threshold == s.threshold
      && Chunk(t) == Chunk(s) && t.remaining == Wrap32(s.remaining - Chunk(s))
      && if t.remaining > 0 then Waits(t) else AwaitsEnd(t) || Done(t)
  {
    hide OnTrack;
    hide Dpc;
    hide StartTransfer;
    hide FinishPio;
    hide Stands;
    RunThree(s, DoDpc(s.required, NO_ERRORS, QUIET), DoStart(false, fifo, QUIET), DoFinish(QUIET));
    var u := Dpc(s, s.required, NO_ERRORS, QUIET);
    RequestCompletesPhase(s, before);
    DpcStaysOnTrack(s, s.required, QUIET, before);
    StartStaysOnTrack(u, false, fifo, QUIET, before);
    OnTrackFacts(u, before);
    FetchMoves(u, false, fifo, QUIET);
    var v := StartTransfer(u, false, fifo, QUIET);
    FinishStaysOnTrack(v, QUIET, before);
    FinishKeepsData(v);
  }

  lemma OnTrackFacts(s: Ext, before: seq<u32>)
    requires OnTrack(s, before)
    ensures Inv(s) && Stands(s) && s.command.transfer == Pio && s.threshold == Threshold(s.command, s.fifoDepth)
    ensures s.remaining == Wrap32(s.command.length - Moved(s)) && s.command.length < TWO_32
  {
  }

  lemma FinishKeepsData(s: Ext)
    requires s.starting.Some?
    ensures SameData(s, FinishPio(s, QUIET)) && FinishPio(s, QUIET).phase == s.phase
  {
  }

  lemma RequestCompletesPhase(s: Ext, before: seq<u32>)
    requires OnTrack(s, before) && Waits(s)
    ensures var t := Dpc(s, s.required, NO_ERRORS, QUIET);
      SameData(s, t) && forall fifo: seq<u32> | |fifo| == s.threshold :: CanDo(t, DoStart(false, fifo, QUIET))
  {
    hide Chunks;
    hide Whole;
    hide Copied;
  }

  /** A run that goes on for `k` chunks, if something remains before each of them. */
  lemma {:induction false} ChainRuns(s: Ext, k: nat, before: seq<u32>) returns (actions: seq<Action>)
    requires OnTrack(s, before) && Waits(s) && k >= 1
    requires k == 1 || Moved(s) + Times(k - 1, Chunk(s)) < s.command.length
    ensures AllErrorFree(actions)
    ensures var t := Run(s, actions);
      OnTrack(t, before) && Moved(t) == Moved(s) + Times(k, Chunk(s)) && t.phase == TransferPhase && t.starting.None?
      && t.command == s.command && t.fifoDepth == s.fifoDepth
    decreases k
  {
    hide OnTrack;
    hide Times;
    hide Chunk;
    var zeros: seq<u32> := seq(s.threshold, i => 0);
    OneChunkMoves(s, zeros, before);
    var t := Run(s, OneChunk(s, zeros));
    Distributes(k - 1, 1, Chunk(s));
    One(Chunk(s));
    if k == 1 {
      ZeroTimes(Chunk(s));
      actions := OneChunk(s, zeros);
    } else {
      OnTrackFacts(t, before);
      Distributes(k - 2, 1, Chunk(s));
      var rest := ChainRuns(t, k - 1, before);
      RunConcat(s, OneChunk(s, zeros), rest);
      actions := OneChunk(s, zeros) + rest;
    }
  }

  /** Nothing remains, and no phase is being started. */
  predicate Ended(s: Ext) { s.phase == TransferPhase && s.starting.None? && s.remaining == 0 }

  predicate MovesAll(s: Ext, actions: seq<Action>) {
    AllErrorFree(actions) && Ended(Run(s, actions)) && Moved(Run(s, actions)) == s.command.length
  }

  predicate MovesTooMuch(s: Ext, actions: seq<Action>) {
    AllErrorFree(actions) && Moved(Run(s, actions)) > s.command.length
  }

  /** A request can end with its data moved if and only if its length is a whole number of chunks. */
  lemma EndsIffWhole(s: Ext, c: Command, local: bool, before: seq<u32>)
    requires Inv(s) && c.transfer == Pio && CanDo(s, DoIssue(c, local, before))
    ensures (exists actions :: MovesAll(Issue(s, c, local, before), actions)) <==> Whole(c, s.fifoDepth)
  {
    hide OnTrack;
    hide Run;
    hide Inv;
    var u := Issue(s, c, local, before);
    IssueIsOnTrack(s, c, local, before);
    WholeIsChunks(c.length, Chunk(u));
    forall actions | MovesAll(u, actions)
      ensures Whole(c, s.fifoDepth)
    {
      RunStaysOnTrack(u, actions, before);
      OnTrackFacts(Run(u, actions), before);
      StandsAtEnd(Run(u, actions), before);
    }
    if Whole(c, s.fifoDepth) {
      var k := if Chunk(u) == 0 then 1 else c.length / Chunk(u);
      ChunksIn(c.length, Chunk(u));
      var actions := ChainRuns(u, k, before);
      OnTrackFacts(Run(u, actions), before);
      assert MovesAll(u, actions);
    }
  }

  lemma ChunksIn(n: nat, chunk: nat)
    ensures chunk == 0 ==> Times(1, chunk) == 0
    ensures 0 < chunk <= n ==>
      var k := n / chunk; k >= 1 && n == Times(k, chunk) + n % chunk && Times(k - 1, chunk) < n && Times(k + 1, chunk) > n
  {
    if 0 < chunk <= n {
      var k := n / chunk;
      QuotientChunks(n, chunk);
      if k == 0 { ZeroTimes(chunk); }
      hide Times;
      Distributes(k - 1, 1, chunk);
      Distributes(k, 1, chunk);
      One(chunk);
    }
  }

  /** It can go past the end of its data if and only if it is not, unless its chunks are empty: then, with
      less than a word, it goes on for ever without moving anything. */
  lemma OverrunsIffUneven(s: Ext, c: Command, local: bool, before: seq<u32>)
    requires Inv(s) && c.transfer == Pio && CanDo(s, DoIssue(c, local, before))
    ensures (exists actions :: MovesTooMuch(Issue(s, c, local, before), actions))
      <==> !Whole(c, s.fifoDepth) && Threshold(c, s.fifoDepth) > 0
  {
    hide OnTrack;
    hide Run;
    hide Inv;
    var u := Issue(s, c, local, before);
    IssueIsOnTrack(s, c, local, before);
    forall actions | MovesTooMuch(u, actions)
      ensures !Whole(c, s.fifoDepth) && Threshold(c, s.fifoDepth) > 0
    {
      RunStaysOnTrack(u, actions, before);
      OnTrackFacts(Run(u, actions), before);
      StandsAtEnd(Run(u, actions), before);
      WholeIsChunks(Moved(Run(u, actions)), Chunk(u));
      if Whole(c, s.fifoDepth) { WholeOnTrack(Run(u, actions), before); }
    }
    if !Whole(c, s.fifoDepth) && Threshold(c, s.fifoDepth) > 0 {
      ChunksIn(c.length, Chunk(u));
      var actions := ChainRuns(u, c.length / Chunk(u) + 1, before);
      assert MovesTooMuch(u, actions);
    }
  }

  /** 600 bytes over a FIFO of 256 words: after the first chunk 88 are left, after the second more than 4
      billion, and the request asks for more. */
  lemma UnevenReadOverruns(memory: seq<u32>, first: seq<u32>, second: seq<u32>)
    requires |first| == |second| == 128
    ensures var s := Issue(Idle(256), Command(Pio, false, false, 600), false, memory);
      var t := Run(s, OneChunk(s, first));
      var u := Run(t, OneChunk(t, second));
      && t.remaining == 88 && Moved(t) == 512
      && u.remaining == 0xFFFF_FE58 && Moved(u) == 1024 && u.status == MoreProcessing && Waits(u)
  {
    hide OnTrack;
    hide Run;
    hide OneChunk;
    var c := Command(Pio, false, false, 600);
    var s := Issue(Idle(256), c, false, memory);
    IssueIsOnTrack(Idle(256), c, false, memory);
    OneChunkMoves(s, first, memory);
    var t := Run(s, OneChunk(s, first));
    OneChunkMoves(t, second, memory);
  }

  // ---- when the end of the transfer is noticed ----

  /** Requests of the port driver, as long as no end of transfer comes. */
  predicate WithoutEnd(a: Action) {
    ErrorFree(a) && !a.DoLocalIsr? && !a.DoLocalDpc? && (a.DoDpc? ==> !a.events.rwEnd)
  }

  predicate AllWithoutEnd(actions: seq<Action>) { forall a <- actions :: WithoutEnd(a) }

  predicate NoEndYet(s: Ext) {
    || ((Waits(s) || Between(s)) && !s.currentEvents.rwEnd)
    || (Starts(s) && !s.currentEvents.rwEnd && !s.starting.value.rwEnd)
    || AwaitsEnd(s)
  }

  /** The end that has come will complete the request. */
  predicate Kept(s: Ext) {
    || ((Waits(s) || Between(s)) && s.remaining == Chunk(s) && s.currentEvents.rwEnd)
    || (Starts(s) && s.remaining == 0 && s.starting.value.rwEnd)
    || Done(s)
  }

  /** If an end has come, it will not. */
  predicate Lost(s: Ext) {
    || ((Waits(s) || Between(s)) && (s.remaining == Chunk(s) ==> !s.currentEvents.rwEnd))
    || (Starts(s) && !s.currentEvents.rwEnd && (s.remaining == 0 ==> !s.starting.value.rwEnd))
    || AwaitsEnd(s)
  }

  lemma DpcStaysKeptOrLost(s: Ext, events: Events, lines: Lines, before: seq<u32>)
    requires OnTrack(s, before) && lines.inserted
    ensures Kept(s) ==> Kept(Dpc(s, events, NO_ERRORS, lines))
    ensures Lost(s) && !events.rwEnd ==> Lost(Dpc(s, events, NO_ERRORS, lines))
    ensures NoEndYet(s) && !events.rwEnd ==> NoEndYet(Dpc(s, events, NO_ERRORS, lines))
    ensures NoEndYet(s) && events.rwEnd ==>
      var t := Dpc(s, events, NO_ERRORS, lines);
      if s.required != NO_EVENTS && (s.remaining == Chunk(s) || s.remaining == 0) then Kept(t) else Lost(t)
  {
    hide Dpc;
    hide Whole;
    hide Copied;
    hide Chunks;
    DpcMoves(s, events, lines);
  }

  lemma ChunkIsU32(s: Ext, before: seq<u32>)
    requires OnTrack(s, before)
    ensures Chunk(s) < TWO_32
    ensures Wrap32(s.remaining - Chunk(s)) == 0 ==> s.remaining == Chunk(s)
  {
    hide Chunks;
    hide Whole;
    hide Copied;
    hide Stands;
    var n, d: nat := s.remaining, Chunk(s);
    assert Wrap32(n - d) == if n >= d then n - d else n - d + TWO_32;
  }

  lemma StepStaysKeptOrLost(s: Ext, a: Action, before: seq<u32>)
    requires OnTrack(s, before) && CanDo(s, a) && WithoutEnd(a)
    ensures Kept(s) ==> Kept(Do(s, a))
    ensures Lost(s) ==> Lost(Do(s, a))
    ensures NoEndYet(s) ==> NoEndYet(Do(s, a))
  {
    hide Dpc;
    hide StartTransfer;
    hide FinishPio;
    hide Worker;
    hide OnTrack;
    OnTrackFacts(s, before);
    match a
    case DoStart(local, fifo, lines) =>
      hide Wrap32;
      FetchMoves(s, local, fifo, lines);
      ChunkIsU32(s, before);
    case DoFinish(lines) => FinishStaysOnTrack(s, lines, before);
    case DoDpc(events, _, lines) => DpcStaysKeptOrLost(s, events, lines, before);
    case DoWorker(_, lines) => WorkerKeeps(s, lines, before);
  }

  lemma WorkerKeeps(s: Ext, lines: Lines, before: seq<u32>)
    requires OnTrack(s, before) && lines.inserted && s.busyQueued
    ensures var t := Worker(s, true, lines);
      && (Done(s) || Between(s)) && (Done(s) <==> Done(t)) && (Between(s) <==> Between(t)) && SameData(s, t)
      && t.currentEvents == s.currentEvents && t.starting == s.starting
  {
    hide Chunks;
    hide Whole;
    hide Copied;
  }

  lemma {:induction false} RunStaysKeptOrLost(s: Ext, actions: seq<Action>, before: seq<u32>)
    requires OnTrack(s, before) && AllWithoutEnd(actions)
    ensures OnTrack(Run(s, actions), before)
    ensures Kept(s) ==> Kept(Run(s, actions))
    ensures Lost(s) ==> Lost(Run(s, actions))
    ensures NoEndYet(s) ==> NoEndYet(Run(s, actions))
    decreases |actions|
  {
    hide OnTrack;
    hide Kept;
    hide Lost;
    hide NoEndYet;
    hide Do;
    hide CanDo;
    if actions != [] {
      assert actions[0] in actions;
      if CanDo(s, actions[0]) {
        StepStaysOnTrack(s, actions[0], before);
        StepStaysKeptOrLost(s, actions[0], before);
      }
      RunStaysKeptOrLost(Next(s, actions[0]), actions[1..], before);
    }
  }

  /** One end of transfer comes, at any point of the run and together with any other events. When the data
      has been moved the request is complete if and only if the DPC that brought the end found something
      still required and one chunk or nothing left; otherwise it waits for an event that has already come. */
  lemma EndIsKeptIff(s: Ext, c: Command, local: bool, before: seq<u32>,
                     early: seq<Action>, events: Events, lines: Lines, late: seq<Action>)
    requires Inv(s) && c.transfer == Pio && CanDo(s, DoIssue(c, local, before))
    requires AllWithoutEnd(early) && events.rwEnd && lines.inserted && AllWithoutEnd(late)
    ensures var u := Run(Issue(s, c, local, before), early);
      var t := Run(Dpc(u, events, NO_ERRORS, lines), late);
      Ended(t) ==>
        if u.required != NO_EVENTS && (u.remaining == Chunk(u) || u.remaining == 0) then Done(t) else AwaitsEnd(t)
  {
    hide OnTrack;
    hide Run;
    hide Dpc;
    hide Inv;
    var i := Issue(s, c, local, before);
    IssueIsOnTrack(s, c, local, before);
    assert NoEndYet(i);
    RunStaysKeptOrLost(i, early, before);
    var u := Run(i, early);
    DpcStaysKeptOrLost(u, events, lines, before);
    DpcStaysOnTrack(u, events, lines, before);
    var v := Dpc(u, events, NO_ERRORS, lines);
    RunStaysKeptOrLost(v, late, before);
    EndedIsDecided(Run(v, late), before);
  }

  lemma EndedIsDecided(t: Ext, before: seq<u32>)
    requires OnTrack(t, before)
    ensures Ended(t) && Kept(t) ==> Done(t)
    ensures Ended(t) && Lost(t) ==> AwaitsEnd(t)
  {
  }

  const END: Action := DoDpc(NO_EVENTS.(rwEnd := true), NO_ERRORS, QUIET)

  /** A read of 64 bytes, as short as the port driver asks PIO for, is one chunk. If the end of transfer
      comes after the data request has completed the command phase, the request is left waiting for it. */
  lemma EndInGapIsLost(memory: seq<u32>, fifo: seq<u32>)
    requires |fifo| == 16
    ensures var s := Issue(Idle(256), Command(Pio, false, false, 64), false, memory);
      var u := Dpc(s, s.required, NO_ERRORS, QUIET);
      AwaitsEnd(Run(u, [END, DoStart(false, fifo, QUIET), DoFinish(QUIET)]))
  {
    hide Stored;
    var s := Issue(Idle(256), Command(Pio, false, false, 64), false, memory);
    RunThree(Dpc(s, s.required, NO_ERRORS, QUIET), END, DoStart(false, fifo, QUIET), DoFinish(QUIET));
  }

  /** So it is if the end comes while the chunk is being read. */
  lemma EndDuringReadIsLost(memory: seq<u32>, fifo: seq<u32>)
    requires |fifo| == 16
    ensures var s := Issue(Idle(256), Command(Pio, false, false, 64), false, memory);
      var u := Dpc(s, s.required, NO_ERRORS, QUIET);
      AwaitsEnd(Run(u, [DoStart(false, fifo, QUIET), END, DoFinish(QUIET)]))
  {
    hide Stored;
    var s := Issue(Idle(256), Command(Pio, false, false, 64), false, memory);
    RunThree(Dpc(s, s.required, NO_ERRORS, QUIET), DoStart(false, fifo, QUIET), END, DoFinish(QUIET));
  }
}
