/** The interrupt handshake of dwc_eqos: ISR, DPC and the arming of queue notifications share the
    wanted mask and the hardware mask (under the interrupt lock), the pending status (interlocked) and
    the armed queue pointers (under the queue lock). */
module Interrupts {
  /** interruptsWanted. */
  datatype Wanted = Wanted(state: bool, rx: bool, tx: bool)

  const NONE: Wanted := Wanted(false, false, false)

  /** The two interrupt enable registers. */
  datatype Mask = Mask(link: bool, rx: bool, tx: bool, normal: bool, fatal: bool, abnormal: bool)

  function MaskOf(w: Wanted): Mask { Mask(w.state, w.rx, w.tx, true, w.state, w.state) }

  /** Interrupt causes: link change, receive, transmit, and anything else. */
  datatype Status = Status(link: bool, rx: bool, tx: bool, other: bool)

  const CLEAR: Status := Status(false, false, false, false)

  function Or(a: Status, b: Status): Status {
    Status(a.link || b.link, a.rx || b.rx, a.tx || b.tx, a.other || b.other)
  }

  datatype Kind = Rx | Tx

  function With(w: Wanted, k: Kind, on: bool): Wanted {
    match k case Rx => w.(rx := on) case Tx => w.(tx := on)
  }

  predicate Has(w: Wanted, k: Kind) { match k case Rx => w.rx case Tx => w.tx }
  predicate Reports(s: Status, k: Kind) { match k case Rx => s.rx case Tx => s.tx }

  /** The memory and registers that the steps share. */
  datatype Shared = Shared(wanted: Wanted, mask: Mask, status: Status, dpcQueued: bool, rxArmed: bool, txArmed: bool)

  predicate Armed(s: Shared, k: Kind) { match k case Rx => s.rxArmed case Tx => s.txArmed }

  // ---- the atomic steps ----

  /** ISR under the interrupt lock: all interrupts off, and the reported queues no longer wanted. */
  function IsrMask(s: Shared, cause: Status): Shared {
    s.(mask := MaskOf(NONE),
       wanted := s.wanted.(rx := s.wanted.rx && !cause.rx, tx := s.wanted.tx && !cause.tx))
  }

  function IsrPublish(s: Shared, cause: Status): Shared { s.(status := Or(s.status, cause)) }

  function IsrQueueDpc(s: Shared): Shared { s.(dpcQueued := true) }

  function DpcExchange(s: Shared): Shared { s.(status := CLEAR) }

  predicate Notifies(s: Shared, held: Status, k: Kind) { Armed(s, k) && Reports(held, k) }

  /** DPC under the queue lock: a reported and armed queue is notified and disarmed. */
  function DpcQueueBlock(s: Shared, held: Status): Shared {
    s.(rxArmed := s.rxArmed && !held.rx, txArmed := s.txArmed && !held.tx)
  }

  function DpcReenable(s: Shared): Shared {
    if s.wanted != NONE then s.(mask := MaskOf(s.wanted)) else s
  }

  function SetPointer(s: Shared, k: Kind, on: bool): Shared {
    match k case Rx => s.(rxArmed := on) case Tx => s.(txArmed := on)
  }

  /** DeviceInterruptEnable and DeviceInterruptDisable: the register is written only on a change. */
  function SetWanted(s: Shared, k: Kind, on: bool): Shared {
    if Has(s.wanted, k) == on then s
    else s.(wanted := With(s.wanted, k, on), mask := MaskOf(With(s.wanted, k, on)))
  }

  /** The device context; each method is one of the critical sections of device.cpp. */
  class DeviceContext {
    var wanted: Wanted
    var mask: Mask
    var status: Status
    var dpcQueued: bool
    var rxQueue: bool
    var txQueue: bool

    function View(): Shared
      reads this
    {
      Shared(wanted, mask, status, dpcQueued, rxQueue, txQueue)
    }

    method InterruptSetLocked(w: Wanted)
      modifies this`mask
      ensures mask == MaskOf(w)
    {
      mask := Mask(w.state, w.rx, w.tx, true, w.state, w.state);
    }

    /** DeviceInterruptIsr up to the interlocked update; it ignores an empty cause. */
    method Isr(cause: Status) returns (handled: bool)
      modifies this`mask, this`wanted
      ensures handled <==> cause != CLEAR
      ensures View() == if handled then IsrMask(old(View()), cause) else old(View())
    {
      handled := cause.link || cause.rx || cause.tx || cause.other;
      if handled {
        InterruptSetLocked(NONE);
        if cause.rx { wanted := wanted.(rx := false); }
        if cause.tx { wanted := wanted.(tx := false); }
      }
    }

    method InterlockedOr(cause: Status)
      modifies this`status
      ensures View() == IsrPublish(old(View()), cause)
    {
      status := Or(status, cause);
    }

    method InterlockedExchange() returns (held: Status)
      modifies this`status
      ensures held == old(status) && View() == DpcExchange(old(View()))
    {
      held := status;
      status := CLEAR;
    }

    /** The part of DeviceInterruptDpc under the queue lock. */
    method QueueBlock(held: Status) returns (notifyRx: bool, notifyTx: bool)
      modifies this`rxQueue, this`txQueue
      ensures notifyRx == Notifies(old(View()), held, Rx) && notifyTx == Notifies(old(View()), held, Tx)
      ensures View() == DpcQueueBlock(old(View()), held)
    {
      notifyRx, notifyTx := false, false;
      if held.rx || held.tx {
        if rxQueue && held.rx { notifyRx, rxQueue := true, false; }
        if txQueue && held.tx { notifyTx, txQueue := true, false; }
      }
    }

    /** The part of DeviceInterruptDpc under the interrupt lock. */
    method Reenable()
      modifies this`mask
      ensures View() == DpcReenable(old(View()))
    {
      if wanted != NONE { InterruptSetLocked(wanted); }
    }

    method InterruptEnable(k: Kind)
      modifies this`wanted, this`mask
      ensures View() == SetWanted(old(View()), k, true)
    {
      var newWanted := With(wanted, k, true);
      if wanted != newWanted {
        wanted := newWanted;
        InterruptSetLocked(newWanted);
      }
    }

    method InterruptDisable(k: Kind)
      modifies this`wanted, this`mask
      ensures View() == SetWanted(old(View()), k, false)
    {
      var newWanted := With(wanted, k, false);
      if wanted != newWanted {
        wanted := newWanted;
        InterruptSetLocked(newWanted);
      }
    }

    /** DeviceSetNotificationRxQueue / TxQueue, first half: the pointer, under the queue lock. */
    method SetQueuePointer(k: Kind, on: bool)
      modifies this`rxQueue, this`txQueue
      ensures View() == SetPointer(old(View()), k, on)
    {
      match k
      case Rx => rxQueue := on;
      case Tx => txQueue := on;
    }
  }

  // ---- all interleavings ----

  /** Where the ISR stands; anywhere but idle it holds the interrupt lock. */
  datatype IsrAt = IsrIdle | IsrMasked(cause: Status) | IsrPublished

  /** Where one activation of the DPC stands. Several may be running on different processors. */
  datatype DpcAt = AtExchange | Holding(held: Status) | Reenabling | Returned

  /** One queue's notification: where its owner stands, and what became of its armings. */
  datatype Owner = Settled | Arming | Disarming
  datatype Ledger = Ledger(owner: Owner, armings: nat, notified: nat, withdrawn: nat)

  datatype State = State(m: Shared, isr: IsrAt, dpcs: seq<DpcAt>, rx: Ledger, tx: Ledger)

  function Book(s: State, k: Kind): Ledger { match k case Rx => s.rx case Tx => s.tx }

  function SetBook(s: State, k: Kind, l: Ledger): State { match k case Rx => s.(rx := l) case Tx => s.(tx := l) }

  datatype Action =
    | IsrEnter(cause: Status) | IsrOr | IsrLeave
    | DpcStart | DpcTake(i: nat) | DpcNotify(i: nat) | DpcEnable(i: nat)
    | Arm(k: Kind) | ArmEnd(k: Kind) | Disarm(k: Kind) | DisarmEnd(k: Kind)
    | PowerUp | PowerDown

  predicate Drained(s: State) {
    s.isr.IsrIdle? && !s.m.dpcQueued && forall d <- s.dpcs :: d.Returned?
  }

  predicate AtPc(s: State, i: nat, holding: bool, reenabling: bool) {
    && i < |s.dpcs|
    && (if holding then s.dpcs[i].Holding? else if reenabling then s.dpcs[i].Reenabling? else s.dpcs[i].AtExchange?)
  }

  /** Locks and program order. Power transitions find interrupts drained and queues disarmed, as asserted. */
  predicate CanDo(s: State, a: Action) {
    match a
    case IsrEnter(cause) => s.isr.IsrIdle? && cause != CLEAR
    case IsrOr => s.isr.IsrMasked?
    case IsrLeave => s.isr.IsrPublished?
    case DpcStart => s.m.dpcQueued
    case DpcTake(i) => AtPc(s, i, false, false)
    case DpcNotify(i) => AtPc(s, i, true, false)
    case DpcEnable(i) => AtPc(s, i, false, true) && s.isr.IsrIdle?
    case Arm(k) => Book(s, k).owner.Settled?
    case ArmEnd(k) => Book(s, k).owner.Arming? && s.isr.IsrIdle?
    case Disarm(k) => Book(s, k).owner.Settled?
    case DisarmEnd(k) => Book(s, k).owner.Disarming? && s.isr.IsrIdle?
    case PowerUp => Drained(s) && s.m.wanted == NONE
    case PowerDown => Drained(s) && !s.m.rxArmed && !s.m.txArmed && s.rx.owner.Settled? && s.tx.owner.Settled?
  }

  function Withdraw(s: State, k: Kind): Ledger {
    var l := Book(s, k);
    if Armed(s.m, k) then l.(withdrawn := l.withdrawn + 1) else l
  }

  function Paid(s: State, held: Status, k: Kind): Ledger {
    var l := Book(s, k);
    if Notifies(s.m, held, k) then l.(notified := l.notified + 1) else l
  }

  function Do(s: State, a: Action): State
    requires CanDo(s, a)
  {
    match a
    case IsrEnter(cause) => s.(m := IsrMask(s.m, cause), isr := IsrMasked(cause))
    case IsrOr => s.(m := IsrPublish(s.m, s.isr.cause), isr := IsrPublished)
    case IsrLeave => s.(m := IsrQueueDpc(s.m), isr := IsrIdle)
    case DpcStart => s.(m := s.m.(dpcQueued := false), dpcs := s.dpcs + [AtExchange])
    case DpcTake(i) =>
      s.(m := DpcExchange(s.m), dpcs := s.dpcs[i := if s.m.status == CLEAR then Returned else Holding(s.m.status)])
    case DpcNotify(i) =>
      var held := s.dpcs[i].held;
      s.(m := DpcQueueBlock(s.m, held), dpcs := s.dpcs[i := Reenabling], rx := Paid(s, held, Rx), tx := Paid(s, held, Tx))
    case DpcEnable(i) => s.(m := DpcReenable(s.m), dpcs := s.dpcs[i := AtExchange])
    case Arm(k) =>
      var l := Withdraw(s, k);
      SetBook(s.(m := SetPointer(s.m, k, true)), k, l.(owner := Arming, armings := l.armings + 1))
    case ArmEnd(k) => SetBook(s.(m := SetWanted(s.m, k, true)), k, Book(s, k).(owner := Settled))
    case Disarm(k) => SetBook(s.(m := SetPointer(s.m, k, false)), k, Withdraw(s, k).(owner := Disarming))
    case DisarmEnd(k) => SetBook(s.(m := SetWanted(s.m, k, false)), k, Book(s, k).(owner := Settled))
    case PowerUp => s.(m := s.m.(wanted := Wanted(true, false, false), mask := MaskOf(Wanted(true, false, false))))
    case PowerDown => s.(m := s.m.(wanted := NONE, mask := MaskOf(NONE)))
  }

  const INITIAL: State :=
    State(Shared(NONE, MaskOf(NONE), CLEAR, false, false, false), IsrIdle, [], Ledger(Settled, 0, 0, 0), Ledger(Settled, 0, 0, 0))

  /** Any schedule: an action that cannot be taken where it stands is skipped. */
  function Run(s: State, actions: seq<Action>): State
    decreases |actions|
  {
    if actions == [] then s
    else Run(if CanDo(s, actions[0]) then Do(s, actions[0]) else s, actions[1..])
  }

  // ---- the invariant ----

  /** Some activation of the DPC is between its exchange and its re-enable. */
  predicate Busy(s: State) { exists d :: d in s.dpcs && (d.Holding? || d.Reenabling?) }

  /** Some activation of the DPC will exchange again, or one is queued. */
  predicate Coming(s: State) { s.m.dpcQueued || exists d :: d in s.dpcs && !d.Returned? }

  /** Somebody still has to turn interrupts back on. */
  predicate Owed(s: State) {
    !s.isr.IsrIdle? || Busy(s) || (s.m.status != CLEAR && Coming(s))
  }

  predicate MaskAgrees(s: State) {
    s.m.mask == MaskOf(s.m.wanted) || (s.m.mask == MaskOf(NONE) && Owed(s))
  }

  predicate StatusIsTaken(s: State) {
    s.m.status != CLEAR ==> Coming(s) || s.isr.IsrPublished? || s.isr.IsrMasked?
  }

  predicate IsrConsistent(s: State) {
    && (s.isr.IsrMasked? ==> s.isr.cause != CLEAR)
    && (s.isr.IsrPublished? ==> s.m.status != CLEAR || Busy(s))
    && (!s.isr.IsrIdle? ==> s.m.mask == MaskOf(NONE))
  }

  predicate HeldReport(d: DpcAt, k: Kind) { d.Holding? && Reports(d.held, k) }

  /** The report of queue k is on its way to a DPC queue block. */
  predicate Underway(s: State, k: Kind) {
    || Reports(s.m.status, k)
    || (s.isr.IsrMasked? && Reports(s.isr.cause, k))
    || exists d :: d in s.dpcs && HeldReport(d, k)
  }

  /** An armed queue whose owner is done is either enabled or about to be notified. */
  predicate NotLost(s: State, k: Kind) {
    Armed(s.m, k) && Book(s, k).owner.Settled? ==> Has(s.m.wanted, k) || Underway(s, k)
  }

  predicate DisarmingIsOff(s: State, k: Kind) { Book(s, k).owner.Disarming? ==> !Armed(s.m, k) }

  /** Every arming was notified once, withdrawn, or is still armed. */
  predicate Balanced(s: State, k: Kind) {
    var l := Book(s, k);
    l.armings == l.notified + l.withdrawn + (if Armed(s.m, k) then 1 else 0)
  }

  predicate InvOf(s: State, k: Kind) { NotLost(s, k) && DisarmingIsOff(s, k) && Balanced(s, k) }

  predicate Inv(s: State) {
    MaskAgrees(s) && StatusIsTaken(s) && IsrConsistent(s) && InvOf(s, Rx) && InvOf(s, Tx)
  }

  // ---- every step keeps it ----

  lemma Stays(dpcs: seq<DpcAt>, i: nat, x: DpcAt, d: DpcAt)
    requires i < |dpcs| && d in dpcs && d != dpcs[i]
    ensures d in dpcs[i := x]
  {
    var j :| 0 <= j < |dpcs| && dpcs[j] == d;
    assert dpcs[i := x][j] == d;
  }

  /** Whatever the activation at i is replaced by, the others are still there. */
  lemma OthersStay(s: State, i: nat, x: DpcAt)
    requires i < |s.dpcs|
    ensures x in s.dpcs[i := x]
    ensures forall d <- s.dpcs :: d != s.dpcs[i] ==> d in s.dpcs[i := x]
  {
    assert s.dpcs[i := x][i] == x;
    forall d | d in s.dpcs && d != s.dpcs[i] ensures d in s.dpcs[i := x] { Stays(s.dpcs, i, x, d); }
  }

  lemma IsrStepsKeep(s: State, a: Action)
    requires Inv(s) && CanDo(s, a) && (a.IsrEnter? || a.IsrOr? || a.IsrLeave?)
    ensures Inv(Do(s, a))
  {
  }

  lemma DpcStartKeeps(s: State)
    requires Inv(s) && CanDo(s, DpcStart)
    ensures Inv(Do(s, DpcStart))
  {
    var t := Do(s, DpcStart);
    assert t.dpcs[|s.dpcs|] == AtExchange;
    assert AtExchange in t.dpcs;
    assert forall d :: d in t.dpcs <==> d in s.dpcs || d == AtExchange;
  }

  lemma DpcTakeKeeps(s: State, i: nat)
    requires Inv(s) && CanDo(s, DpcTake(i))
    ensures Inv(Do(s, DpcTake(i)))
  {
    OthersStay(s, i, Do(s, DpcTake(i)).dpcs[i]);
  }

  lemma DpcNotifyKeeps(s: State, i: nat)
    requires Inv(s) && CanDo(s, DpcNotify(i))
    ensures Inv(Do(s, DpcNotify(i)))
  {
    OthersStay(s, i, Reenabling);
  }

  lemma DpcEnableKeeps(s: State, i: nat)
    requires Inv(s) && CanDo(s, DpcEnable(i))
    ensures Inv(Do(s, DpcEnable(i)))
  {
    OthersStay(s, i, AtExchange);
  }

  lemma PointerStepsKeep(s: State, k: Kind, on: bool)
    requires var a := if on then Arm(k) else Disarm(k); Inv(s) && CanDo(s, a)
    ensures Inv(Do(s, if on then Arm(k) else Disarm(k)))
  {
    var t := Do(s, if on then Arm(k) else Disarm(k));
    assert MaskAgrees(t) && StatusIsTaken(t) && IsrConsistent(t);
    match k
    case Rx => assert InvOf(t, Tx);
    case Tx => assert InvOf(t, Rx);
  }

  lemma WantedStepsKeep(s: State, k: Kind, on: bool)
    requires var a := if on then ArmEnd(k) else DisarmEnd(k); Inv(s) && CanDo(s, a)
    ensures Inv(Do(s, if on then ArmEnd(k) else DisarmEnd(k)))
  {
    var t := Do(s, if on then ArmEnd(k) else DisarmEnd(k));
    assert MaskAgrees(t) && StatusIsTaken(t) && IsrConsistent(t);
    match k
    case Rx => assert InvOf(t, Tx);
    case Tx => assert InvOf(t, Rx);
  }

  lemma PowerKeeps(s: State, a: Action)
    requires Inv(s) && CanDo(s, a) && (a.PowerUp? || a.PowerDown?)
    ensures Inv(Do(s, a))
  {
  }

  lemma StepKeeps(s: State, a: Action)
    requires Inv(s) && CanDo(s, a)
    ensures Inv(Do(s, a))
  {
    hide Inv;
    hide Do;
    match a
    case DpcStart => DpcStartKeeps(s);
    case DpcTake(i) => DpcTakeKeeps(s, i);
    case DpcNotify(i) => DpcNotifyKeeps(s, i);
    case DpcEnable(i) => DpcEnableKeeps(s, i);
    case PowerUp => PowerKeeps(s, a);
    case PowerDown => PowerKeeps(s, a);
    case IsrEnter(_) => IsrStepsKeep(s, a);
    case IsrOr => IsrStepsKeep(s, a);
    case IsrLeave => IsrStepsKeep(s, a);
    case Arm(k) => PointerStepsKeep(s, k, true);
    case Disarm(k) => PointerStepsKeep(s, k, false);
    case ArmEnd(k) => WantedStepsKeep(s, k, true);
    case DisarmEnd(k) => WantedStepsKeep(s, k, false);
  }

  lemma {:induction false} RunKeeps(s: State, actions: seq<Action>)
    requires Inv(s)
    ensures Inv(Run(s, actions))
    decreases |actions|
  {
    hide Inv;
    hide Do;
    hide CanDo;
    if actions != [] {
      if CanDo(s, actions[0]) { StepKeeps(s, actions[0]); }
      RunKeeps(if CanDo(s, actions[0]) then Do(s, actions[0]) else s, actions[1..]);
    }
  }

  /** In every interleaving the hardware mask is the wanted one, or all off with a re-enable still owed. */
  lemma EveryInterleavingIsSafe(actions: seq<Action>)
    ensures Inv(Run(INITIAL, actions))
    ensures MaskAgrees(Run(INITIAL, actions))
    ensures forall k: Kind :: NotLost(Run(INITIAL, actions), k)
  {
    RunKeeps(INITIAL, actions);
    forall k: Kind ensures NotLost(Run(INITIAL, actions), k) {
      match k case Rx => case Tx =>
    }
  }

  predicate Lets(m: Mask, k: Kind) { match k case Rx => m.rx case Tx => m.tx }

  /** Once ISR and DPC are done nothing is pending, and an armed queue has its interrupt switched on. */
  lemma QuietMeansListening(actions: seq<Action>, k: Kind)
    requires Drained(Run(INITIAL, actions))
    ensures var s := Run(INITIAL, actions);
      && s.m.status == CLEAR && s.m.mask == MaskOf(s.m.wanted)
      && (Armed(s.m, k) && Book(s, k).owner.Settled? ==> Lets(s.m.mask, k))
  {
    EveryInterleavingIsSafe(actions);
  }

  /** No arming is notified twice: those not withdrawn by the owner are notified once or still armed. */
  lemma NotifiedAtMostOnce(actions: seq<Action>, k: Kind)
    ensures var s := Run(INITIAL, actions);
      var l := Book(s, k);
      && l.notified + l.withdrawn <= l.armings <= l.notified + l.withdrawn + 1
      && (l.armings == l.notified + l.withdrawn + 1 <==> Armed(s.m, k))
  {
    EveryInterleavingIsSafe(actions);
  }

  // ---- which interrupts are on, register bit by register bit ----

  /** An interrupt that is on is wanted, in every state of every interleaving; while the ISR holds the lock
      only the summary bit is on; and once nothing is owed every wanted interrupt is on. */
  lemma MaskIsWanted(actions: seq<Action>)
    ensures var s := Run(INITIAL, actions);
      && (s.m.mask.rx ==> s.m.wanted.rx) && (s.m.mask.tx ==> s.m.wanted.tx)
      && (s.m.mask.link || s.m.mask.fatal || s.m.mask.abnormal ==> s.m.wanted.state) && s.m.mask.normal
    ensures var s := Run(INITIAL, actions);
      !s.isr.IsrIdle? ==> !s.m.mask.link && !s.m.mask.rx && !s.m.mask.tx && !s.m.mask.fatal && !s.m.mask.abnormal
    ensures var s := Run(INITIAL, actions);
      !Owed(s) ==> (&& s.m.mask.rx == s.m.wanted.rx && s.m.mask.tx == s.m.wanted.tx && s.m.mask.link == s.m.wanted.state
                    && s.m.mask.fatal == s.m.wanted.state && s.m.mask.abnormal == s.m.wanted.state)
  {
    hide Run;
    EveryInterleavingIsSafe(actions);
  }

  predicate Wants(s: State, k: Kind) { match k case Rx => s.m.wanted.rx case Tx => s.m.wanted.tx }

  /** A queue that is not wanted becomes wanted only when its owner enables it. */
  lemma {:induction false} OnlyArmingEnables(s: State, actions: seq<Action>, k: Kind)
    requires !Wants(s, k) && ArmEnd(k) !in actions
    ensures !Wants(Run(s, actions), k)
    decreases |actions|
  {
    if actions != [] {
      var t := if CanDo(s, actions[0]) then Do(s, actions[0]) else s;
      assert actions[0] in actions && actions[0] != ArmEnd(k);
      StepEnables(s, actions[0], k);
      OnlyArmingEnables(t, actions[1..], k);
    }
  }

  lemma StepEnables(s: State, a: Action, k: Kind)
    requires !Wants(s, k) && a != ArmEnd(k)
    ensures CanDo(s, a) ==> !Wants(Do(s, a), k)
  {
  }

  /** No interrupt storm: once a queue was reported, its interrupt stays off until its owner enables it. */
  lemma ReportedStaysOff(before: seq<Action>, cause: Status, after: seq<Action>)
    requires CanDo(Run(INITIAL, before), IsrEnter(cause))
    ensures var s := Run(INITIAL, before + [IsrEnter(cause)] + after);
      && (cause.rx && ArmEnd(Rx) !in after ==> !s.m.mask.rx)
      && (cause.tx && ArmEnd(Tx) !in after ==> !s.m.mask.tx)
  {
    hide CanDo;
    var s := Run(INITIAL, before);
    var t := Do(s, IsrEnter(cause));
    RunSplit(INITIAL, before + [IsrEnter(cause)], after);
    RunSplit(INITIAL, before, [IsrEnter(cause)]);
    RunOne(s, IsrEnter(cause));
    MaskIsWanted(before + [IsrEnter(cause)] + after);
    if cause.rx && ArmEnd(Rx) !in after { OnlyArmingEnables(t, after, Rx); }
    if cause.tx && ArmEnd(Tx) !in after { OnlyArmingEnables(t, after, Tx); }
  }

  /** What can turn a queue's interrupt off for good: its own report, its owner, or power. */
  predicate TurnsOff(a: Action, k: Kind) {
    || a == DisarmEnd(k) || a.PowerUp? || a.PowerDown?
    || (a.IsrEnter? && match k case Rx => a.cause.rx case Tx => a.cause.tx)
  }

  /** Nothing else does, and only power changes whether link and error interrupts are wanted. */
  lemma {:induction false} WantedIsKept(s: State, actions: seq<Action>)
    ensures s.m.wanted.rx && (forall a <- actions :: !TurnsOff(a, Rx)) ==> Run(s, actions).m.wanted.rx
    ensures s.m.wanted.tx && (forall a <- actions :: !TurnsOff(a, Tx)) ==> Run(s, actions).m.wanted.tx
    ensures (forall a <- actions :: !a.PowerUp? && !a.PowerDown?) ==> Run(s, actions).m.wanted.state == s.m.wanted.state
    decreases |actions|
  {
    if actions != [] {
      hide Do;
      hide CanDo;
      hide TurnsOff;
      var a, t := actions[0], if CanDo(s, actions[0]) then Do(s, actions[0]) else s;
      assert a in actions && forall b <- actions[1..] :: b in actions;
      if CanDo(s, a) { StepKeepsWanted(s, a); }
      WantedIsKept(t, actions[1..]);
    }
  }

  lemma StepKeepsWanted(s: State, a: Action)
    requires CanDo(s, a)
    ensures s.m.wanted.rx && !TurnsOff(a, Rx) ==> Do(s, a).m.wanted.rx
    ensures s.m.wanted.tx && !TurnsOff(a, Tx) ==> Do(s, a).m.wanted.tx
    ensures !a.PowerUp? && !a.PowerDown? ==> Do(s, a).m.wanted.state == s.m.wanted.state
  {
    hide MaskOf;
    hide Paid;
    hide Withdraw;
    hide SetBook;
    if a.Arm? || a.Disarm? { SetBookKeepsShared(s, a); }
    if a.ArmEnd? || a.DisarmEnd? { SetBookKeepsShared(s, a); }
  }

  lemma SetBookKeepsShared(s: State, a: Action)
    requires CanDo(s, a) && (a.Arm? || a.Disarm? || a.ArmEnd? || a.DisarmEnd?)
    ensures Do(s, a).m == if a.Arm? then SetPointer(s.m, a.k, true) else if a.Disarm? then SetPointer(s.m, a.k, false)
      else SetWanted(s.m, a.k, a.ArmEnd?)
  {
  }

  /** Power on and off, as the mask shows it. */
  lemma PowerSetsMask(s: State)
    ensures CanDo(s, PowerUp) ==> (var t := Do(s, PowerUp).m;
      t.wanted.state && !t.wanted.rx && !t.wanted.tx && t.mask.link && t.mask.fatal && t.mask.abnormal && !t.mask.rx && !t.mask.tx)
    ensures CanDo(s, PowerDown) ==> (var t := Do(s, PowerDown).m;
      !t.wanted.state && !t.wanted.rx && !t.wanted.tx && !t.mask.link && !t.mask.fatal && !t.mask.abnormal && !t.mask.rx && !t.mask.tx)
  {
  }

  /** A cause is kept, bit by bit, until some DPC takes it. */
  lemma {:induction false} CauseIsKept(s: State, actions: seq<Action>)
    requires forall a <- actions :: !a.DpcTake?
    ensures var t := Run(s, actions).m.status;
      && (s.m.status.link ==> t.link) && (s.m.status.rx ==> t.rx) && (s.m.status.tx ==> t.tx) && (s.m.status.other ==> t.other)
    decreases |actions|
  {
    if actions != [] {
      var t := if CanDo(s, actions[0]) then Do(s, actions[0]) else s;
      assert !actions[0].DpcTake?;
      assert t.m.status == s.m.status || (s.isr.IsrMasked? && t.m.status == Or(s.m.status, s.isr.cause));
      CauseIsKept(t, actions[1..]);
    }
  }

  /** The ISR passes on exactly its own cause, and the DPC that takes next holds exactly what was passed on. */
  lemma CauseIsPassedOn(s: State, cause: Status, i: nat)
    requires s.isr == IsrMasked(cause) && CanDo(Do(s, IsrOr), DpcTake(i)) && cause != CLEAR
    ensures var t := Do(Do(s, IsrOr), DpcTake(i));
      && t.m.status == Status(false, false, false, false) && t.dpcs[i].Holding?
      && (t.dpcs[i].held.link <==> s.m.status.link || cause.link) && (t.dpcs[i].held.rx <==> s.m.status.rx || cause.rx)
      && (t.dpcs[i].held.tx <==> s.m.status.tx || cause.tx) && (t.dpcs[i].held.other <==> s.m.status.other || cause.other)
  {
  }

  // ---- a report under way can always be delivered ----

  lemma RunOne(s: State, a: Action)
    requires CanDo(s, a)
    ensures Run(s, [a]) == Do(s, a)
  {
    assert [a][1..] == [];
  }

  lemma {:induction false} RunSplit(s: State, a: seq<Action>, b: seq<Action>)
    ensures Run(s, a + b) == Run(Run(s, a), b)
    decreases |a|
  {
    if a == [] {
      assert a + b == b;
    } else {
      assert (a + b)[1..] == a[1..] + b;
      RunSplit(if CanDo(s, a[0]) then Do(s, a[0]) else s, a[1..], b);
    }
  }

  lemma Then(s: State, a: Action, b: seq<Action>)
    requires CanDo(s, a)
    ensures Run(s, [a] + b) == Run(Do(s, a), b)
  {
    RunSplit(s, [a], b);
    RunOne(s, a);
  }

  predicate Delivered(s: State, t: State, k: Kind) { Book(t, k).notified == Book(s, k).notified + 1 && !Armed(t.m, k) }

  /** Steps that finish what the ISR and the DPC have begun. */
  predicate OnlyHandlers(b: seq<Action>) {
    forall a <- b :: a.IsrOr? || a.IsrLeave? || a.DpcStart? || a.DpcTake? || a.DpcNotify? || a.DpcEnable?
  }

  lemma DeliverHeld(s: State, k: Kind, i: nat) returns (b: seq<Action>)
    requires i < |s.dpcs| && HeldReport(s.dpcs[i], k) && Armed(s.m, k)
    ensures Delivered(s, Run(s, b), k) && OnlyHandlers(b)
  {
    b := [DpcNotify(i)];
    RunOne(s, DpcNotify(i));
  }

  lemma DeliverTaken(s: State, k: Kind, i: nat) returns (b: seq<Action>)
    requires i < |s.dpcs| && s.dpcs[i].AtExchange? && Reports(s.m.status, k) && Armed(s.m, k)
    ensures Delivered(s, Run(s, b), k) && OnlyHandlers(b)
  {
    var t := Do(s, DpcTake(i));
    var c := DeliverHeld(t, k, i);
    b := [DpcTake(i)] + c;
    Then(s, DpcTake(i), c);
  }

  lemma DeliverQueued(s: State, k: Kind) returns (b: seq<Action>)
    requires s.m.dpcQueued && Reports(s.m.status, k) && Armed(s.m, k)
    ensures Delivered(s, Run(s, b), k) && OnlyHandlers(b)
  {
    var t := Do(s, DpcStart);
    var c := DeliverTaken(t, k, |s.dpcs|);
    b := [DpcStart] + c;
    Then(s, DpcStart, c);
  }

  lemma DeliverPublished(s: State, k: Kind) returns (b: seq<Action>)
    requires s.isr.IsrPublished? && Reports(s.m.status, k) && Armed(s.m, k)
    ensures Delivered(s, Run(s, b), k) && OnlyHandlers(b)
  {
    var t := Do(s, IsrLeave);
    var c := DeliverQueued(t, k);
    b := [IsrLeave] + c;
    Then(s, IsrLeave, c);
  }

  lemma DeliverMasked(s: State, k: Kind) returns (b: seq<Action>)
    requires s.isr.IsrMasked? && (Reports(s.isr.cause, k) || Reports(s.m.status, k)) && Armed(s.m, k)
    ensures Delivered(s, Run(s, b), k) && OnlyHandlers(b)
  {
    var t := Do(s, IsrOr);
    var c := DeliverPublished(t, k);
    b := [IsrOr] + c;
    Then(s, IsrOr, c);
  }

  /** An activation on its way round the loop gets back to the exchange. */
  lemma DeliverLooping(s: State, k: Kind, i: nat) returns (b: seq<Action>)
    requires i < |s.dpcs| && !s.dpcs[i].Returned? && s.isr.IsrIdle? && Reports(s.m.status, k) && Armed(s.m, k)
    ensures Delivered(s, Run(s, b), k) && OnlyHandlers(b)
    decreases if s.dpcs[i].Holding? then 1 else 0
  {
    if s.dpcs[i].AtExchange? {
      b := DeliverTaken(s, k, i);
    } else if s.dpcs[i].Reenabling? {
      var t := Do(s, DpcEnable(i));
      var c := DeliverTaken(t, k, i);
      b := [DpcEnable(i)] + c;
      Then(s, DpcEnable(i), c);
    } else if Reports(s.dpcs[i].held, k) {
      b := DeliverHeld(s, k, i);
    } else {
      var t := Do(s, DpcNotify(i));
      var c := DeliverLooping(t, k, i);
      b := [DpcNotify(i)] + c;
      Then(s, DpcNotify(i), c);
    }
  }

  /** From every reachable state, a report on its way to an armed queue can still be carried to its
      notification by steps of ISR and DPC alone: no state is stuck with a lost report. */
  lemma ReportReachesQueue(actions: seq<Action>, k: Kind) returns (rest: seq<Action>)
    requires var s := Run(INITIAL, actions); Armed(s.m, k) && Underway(s, k)
    ensures var s := Run(INITIAL, actions); Delivered(s, Run(INITIAL, actions + rest), k)
    ensures OnlyHandlers(rest)
  {
    var s := Run(INITIAL, actions);
    EveryInterleavingIsSafe(actions);
    if d :| d in s.dpcs && HeldReport(d, k) {
      var i :| 0 <= i < |s.dpcs| && s.dpcs[i] == d;
      rest := DeliverHeld(s, k, i);
    } else if s.isr.IsrMasked? {
      rest := DeliverMasked(s, k);
    } else if s.isr.IsrPublished? {
      rest := DeliverPublished(s, k);
    } else if s.m.dpcQueued {
      rest := DeliverQueued(s, k);
    } else {
      var d :| d in s.dpcs && !d.Returned?;
      var i :| 0 <= i < |s.dpcs| && s.dpcs[i] == d;
      rest := DeliverLooping(s, k, i);
    }
    RunSplit(INITIAL, actions, rest);
  }
}
