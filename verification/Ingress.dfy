/**
 Breadcrumb ingress: any number of producers, one drainer and one closer share a lifecycle gate, a
 non-blocking admission lock, an in-flight token count and per-lane counters (BreadcrumbTraceEmitter.record
 and BreadcrumbTraceCollector.record and close in src/python/common/breadcrumb_trace.py). A producer is a
 worker process or a collector-owned call: the latter joins the same gate, never puts a record, and
 counts a rejection in the total only.

 Every lock acquisition, lock release and shared read or write is one atomic
 step. A run is a sequence of actions, so "for all action sequences" is "for all
 interleavings". A process that is killed simply takes no further action.
 */
module Ingress {

  datatype Gate = Open | Closing | Closed

  datatype Lane = Critical | Normal

  datatype LockState = Free | ByProducer(pid: nat) | ByCloser

  /** One admitted record: the process that put it and the number of its call. */
  datatype Item = Item(pid: nat, call: nat)

  /** Where a producer stands inside `record`. */
  datatype Pc =
    | Idle
    | LockMissed                          // begin token: acquire(False) failed, gate not read yet
    | BeginLocked                         // begin token: lock held, gate not read yet
    | BeginGateOpen                       // begin token: gate read OPEN under the lock
    | BeginNotReconciling                 // begin token: reconcile gate read clear
    | BeginCounted                        // begin token: token counted, lock still held
    | BeginRefused(candidate: bool)       // begin token refused, lock still held
    | Admitted                            // token held, lock released
    | PutLocked(lane: Lane)               // token and lock held, gate not re-read
    | PutGateOpen(lane: Lane)             // gate re-read OPEN under the lock
    | Reserved(lane: Lane)                // reservation counted, nothing put
    | PutDone(lane: Lane)                 // record in the queue, not counted as enqueued
    | EnqueueCounted(lane: Lane)          // counted as enqueued, reservation still held
    | PutFailed(lane: Lane)               // queue refused, reservation still held
    | Rejecting(lane: Lane, locked: bool) // about to count a rejection
    | RejectingLane(lane: Lane, locked: bool) // counted in the total, not in its lane
    | LeavingLock                         // settled, lock still held
    | EndToken                            // settled, token still held
    | RejectCandidate                     // refused while OPEN, gate not re-read
    | RejectGateOpen                      // gate re-read OPEN, no token yet
    | RejectToken                         // rejection token counted, recheck pending
    | RejectBackout                       // recheck failed, token must go back
    | RejectOpen                          // recheck passed, rejection may be counted
    | RejectingDirect                     // a collector-owned call: about to count in the total only

  datatype Producer = Producer(pc: Pc, calls: nat)

  datatype LaneState = LaneState(
    reservations: nat, enqueued: nat, acked: nat, rejected: nat,
    queue: multiset<Item>, hand: multiset<Item>,
    puts: multiset<Item>, done: multiset<Item>)

  /** Where the closer stands inside `close`; `Pending` and `Tokens` carry what was read. */
  datatype Closer =
    | Running
    | GateLocked                                      // admission lock held
    | GatePublished                                   // CLOSING visible, lock still held
    | Pending(last: bool, step: nat, enq: nat, acc: nat) // reading the known-pending count
    | Tokens(step: nat)                               // `step` counters read as zero
    | Folding(step: nat)                              // folding the rejection counters
    | ReadyToTerminate
    | TerminalLocked
    | TerminalPublished
    | Terminated

  /** Everything the processes share; `direct` records, for the proof, the rejections that no lane counts. */
  datatype Shared = Shared(
    gate: Gate, lock: LockState, reconciling: bool,
    inflight: nat, rejected: nat, direct: nat, critical: LaneState, normal: LaneState)

  /** `*Seen` is what the collector has folded out of the rejection counters. */
  datatype State = State(
    sh: Shared, rejectedSeen: nat, criticalSeen: nat, normalSeen: nat,
    producers: seq<Producer>, closer: Closer)

  /** What the environment decides at one step: is the facility enabled, is a record valid, is it the collector itself
      that records, ... */
  datatype Choice = Choice(yes: bool, oversized: bool, direct: bool, lane: Lane)

  datatype Action =
    | Produce(pid: nat, choice: Choice)
    | Close
    | ForceClosing
    | Reconcile(on: bool)
    | Take(lane: Lane, item: Item)
    | Ack(lane: Lane)

  const INFLIGHT_CAPACITY: nat := 2048 + 64

  function LaneOf(sh: Shared, lane: Lane): LaneState {
    if lane == Critical then sh.critical else sh.normal
  }

  function SetLane(sh: Shared, lane: Lane, l: LaneState): Shared {
    if lane == Critical then sh.(critical := l) else sh.(normal := l)
  }

  // ---- producer -----------------------------------------------------------

  /** The steps that read or write one lane's queue or counters. */
  predicate OnLane(pc: Pc) {
    pc.PutGateOpen? || pc.Reserved? || pc.PutDone? || pc.EnqueueCounted? || pc.PutFailed? || pc.RejectingLane?
  }

  function ActOnLane(l: LaneState, i: nat, p: Producer, c: Choice): (LaneState, Pc)
    requires OnLane(p.pc)
  {
    match p.pc
    case PutGateOpen(lane) => (l.(reservations := l.reservations + 1), Reserved(lane))
    case Reserved(lane) =>
      var item := multiset{Item(i, p.calls)};
      if c.yes then (l.(queue := l.queue + item, puts := l.puts + item), PutDone(lane))
      else (l, PutFailed(lane))                                    // queue.Full
    case PutDone(lane) => (l.(enqueued := l.enqueued + 1), EnqueueCounted(lane))
    case EnqueueCounted(lane) => (l.(reservations := Decremented(l.reservations)), LeavingLock)
    case PutFailed(lane) => (l.(reservations := Decremented(l.reservations)), Rejecting(lane, true))
    case RejectingLane(lane, locked) => (l.(rejected := l.rejected + 1), if locked then LeavingLock else EndToken)
  }

  /** The steps on the gate, the admission lock, the token count and the total rejection count. */
  function ActOnGate(sh: Shared, i: nat, pc: Pc, c: Choice): (Shared, Pc)
    requires !OnLane(pc)
  {
    match pc
    case Idle => if sh.lock == Free then (sh.(lock := ByProducer(i)), BeginLocked) else (sh, LockMissed)
    case LockMissed => (sh, if sh.gate == Open then RejectCandidate else Idle)
    case BeginLocked => (sh, if sh.gate == Open then BeginGateOpen else BeginRefused(false))
    case BeginGateOpen => (sh, if sh.reconciling then BeginRefused(true) else BeginNotReconciling)
    case BeginNotReconciling =>
      if sh.inflight >= INFLIGHT_CAPACITY then (sh, BeginRefused(true))
      else (sh.(inflight := sh.inflight + 1), BeginCounted)
    case BeginCounted => (sh.(lock := Free), Admitted)
    case BeginRefused(candidate) => (sh.(lock := Free), if candidate then RejectCandidate else Idle)
    case Admitted =>
      if !c.yes then (sh, EndToken)                                // disabled, dropped by policy, or recorded directly
      else if c.oversized then (sh, Rejecting(c.lane, false))      // no bounded record could be built
      else if sh.lock == Free then (sh.(lock := ByProducer(i)), PutLocked(c.lane))
      else (sh, Rejecting(c.lane, false))
    case PutLocked(lane) => (sh, if sh.gate == Open then PutGateOpen(lane) else Rejecting(lane, true))
    case Rejecting(lane, locked) => (sh.(rejected := sh.rejected + 1), RejectingLane(lane, locked))
    case LeavingLock => (sh.(lock := Free), EndToken)
    case EndToken => (sh.(inflight := Decremented(sh.inflight)), Idle)
    case RejectCandidate => (sh, if sh.gate == Open then RejectGateOpen else Idle)
    case RejectGateOpen => (sh.(inflight := sh.inflight + 1), RejectToken)
    case RejectToken => (sh, if sh.gate == Open then RejectOpen else RejectBackout)
    case RejectBackout => (sh.(inflight := Decremented(sh.inflight)), Idle)
    case RejectOpen =>
      (sh, if sh.gate != Open || !c.yes then EndToken else if c.direct then RejectingDirect
       else Rejecting(c.lane, false))
    case RejectingDirect => (sh.(rejected := sh.rejected + 1, direct := sh.direct + 1), EndToken)
  }

  /** One step of producer `i`, standing at `p`: the new shared state and where it stands then. */
  function Act(sh: Shared, i: nat, p: Producer, c: Choice): (Shared, Pc) {
    if OnLane(p.pc) then
      var (l, pc) := ActOnLane(LaneOf(sh, p.pc.lane), i, p, c);
      (SetLane(sh, p.pc.lane, l), pc)
    else
      ActOnGate(sh, i, p.pc, c)
  }

  /** The source's max(0, n - 1). */
  function Decremented(n: nat): nat { if n > 0 then n - 1 else 0 }

  /** A call gets its number when it starts. */
  function Moved(p: Producer, pc: Pc): Producer {
    Producer(pc, if p.pc == Idle then p.calls + 1 else p.calls)
  }

  function StepProducer(s: State, i: nat, c: Choice): State
    requires i < |s.producers|
  {
    var p := s.producers[i];
    var (sh, pc) := Act(s.sh, i, p, c);
    s.(sh := sh, producers := s.producers[i := Moved(p, pc)])
  }

  // ---- closer -------------------------------------------------------------

  function StepCloser(s: State): State {
    var sh := s.sh;
    match s.closer
    case Running => if sh.lock == Free then s.(sh := sh.(lock := ByCloser), closer := GateLocked) else s
    case GateLocked =>
      s.(sh := sh.(gate := if sh.gate == Open then Closing else sh.gate), closer := GatePublished)
    case GatePublished => s.(sh := sh.(lock := Free), closer := Pending(false, 0, 0, 0))
    case Pending(last, step, enq, acc) => s.(closer := StepPending(sh, last, step, enq, acc))
    case Tokens(step) =>
      var value := if step == 0 then sh.inflight
                   else if step == 1 then sh.critical.reservations else sh.normal.reservations;
      s.(closer := if value != 0 then Tokens(0) else if step < 2 then Tokens(step + 1) else Folding(0))
    case Folding(step) =>
      if step == 0 then s.(rejectedSeen := sh.rejected, closer := Folding(1))
      else if step == 1 then s.(criticalSeen := sh.critical.rejected, closer := Folding(2))
      else s.(normalSeen := sh.normal.rejected, closer := Pending(true, 0, 0, 0))
    case ReadyToTerminate =>
      if sh.lock == Free then s.(sh := sh.(lock := ByCloser), closer := TerminalLocked) else s
    case TerminalLocked => s.(sh := sh.(gate := Closed), closer := TerminalPublished)
    case TerminalPublished => s.(sh := sh.(lock := Free), closer := Terminated)
    case Terminated => s
  }

  /** The six reads of the known-pending count, lane by lane: enqueued, acked, reservations. */
  function StepPending(sh: Shared, last: bool, step: nat, enq: nat, acc: nat): Closer {
    var l := if step < 3 then sh.critical else sh.normal;
    if step == 0 || step == 3 then Pending(last, step + 1, l.enqueued, acc)
    else if step == 1 || step == 4 then
      Pending(last, step + 1, enq, acc + (if enq > l.acked then enq - l.acked else 0))
    else if step == 2 || step == 5 then Pending(last, step + 1, enq, acc + l.reservations)
    else if acc != 0 then Pending(last, 0, 0, 0)              // drain once more and look again
    else if last then ReadyToTerminate else Tokens(0)
  }

  // ---- whole system -------------------------------------------------------

  function TakeItem(l: LaneState, item: Item): LaneState {
    if item in l.queue && l.hand == multiset{}
    then l.(queue := l.queue - multiset{item}, hand := multiset{item}) else l
  }

  function AckItem(l: LaneState): LaneState {
    if l.hand != multiset{}
    then l.(hand := multiset{}, done := l.done + l.hand, acked := l.acked + 1) else l
  }

  function Step(s: State, a: Action): State {
    match a
    case Produce(pid, choice) => if pid < |s.producers| then StepProducer(s, pid, choice) else s
    case Close => StepCloser(s)
    case ForceClosing =>
      if s.closer == Running && s.sh.gate == Open then s.(sh := s.sh.(gate := Closing)) else s
    case Reconcile(on) => s.(sh := s.sh.(reconciling := on))
    case Take(lane, item) => s.(sh := SetLane(s.sh, lane, TakeItem(LaneOf(s.sh, lane), item)))
    case Ack(lane) => s.(sh := SetLane(s.sh, lane, AckItem(LaneOf(s.sh, lane))))
  }

  function Run(s: State, actions: seq<Action>): State
    decreases |actions|
  {
    if actions == [] then s else Run(Step(s, actions[0]), actions[1..])
  }

  const EMPTY_LANE: LaneState :=
    LaneState(0, 0, 0, 0, multiset{}, multiset{}, multiset{}, multiset{})

  function Init(n: nat): State {
    State(Shared(Open, Free, false, 0, 0, 0, EMPTY_LANE, EMPTY_LANE), 0, 0, 0, seq(n, _ => Producer(Idle, 0)), Running)
  }

  // ---- invariant ----------------------------------------------------------

  predicate HoldsReservation(pc: Pc) {
    pc.Reserved? || pc.PutDone? || pc.EnqueueCounted? || pc.PutFailed?
  }

  predicate HoldsLock(pc: Pc) {
    pc.BeginLocked? || pc.BeginGateOpen? || pc.BeginNotReconciling? || pc.BeginCounted? || pc.BeginRefused? ||
    pc.PutLocked? || pc.PutGateOpen? || HoldsReservation(pc) || pc.LeavingLock? ||
    (pc.Rejecting? && pc.locked) || (pc.RejectingLane? && pc.locked)
  }

  /** Holds the lock having read the gate OPEN under it, with its admission or put still to come. */
  predicate OpenUnderLock(pc: Pc) {
    pc.BeginGateOpen? || pc.BeginNotReconciling? || pc.BeginCounted? || pc.PutGateOpen? || HoldsReservation(pc)
  }

  /** Holds a token that entitles it to change the accounting. */
  predicate Live(pc: Pc) {
    pc.BeginCounted? || pc.Admitted? || pc.PutLocked? || pc.PutGateOpen? || HoldsReservation(pc) ||
    pc.Rejecting? || pc.RejectingLane? || pc.LeavingLock? || pc.EndToken? || pc.RejectOpen? || pc.RejectingDirect?
  }

  /** Holds a rejection token that the recheck has not confirmed. */
  predicate Provisional(pc: Pc) { pc.RejectToken? || pc.RejectBackout? }

  /** This call has already put its record, so it will not put another. */
  predicate PutOver(pc: Pc) {
    pc.Idle? || pc.PutDone? || pc.EnqueueCounted? || pc.LeavingLock? || pc.EndToken?
  }

  /** The quantities that are sums over all producers. */
  datatype Measure = Token | Reservation(lane: Lane) | Uncounted(lane: Lane) | HalfRejected

  function Weight(m: Measure, pc: Pc): nat {
    match m
    case Token => if Live(pc) || Provisional(pc) then 1 else 0
    case Reservation(lane) => if HoldsReservation(pc) && pc.lane == lane then 1 else 0
    case Uncounted(lane) => if pc == PutDone(lane) then 1 else 0
    case HalfRejected => if pc.RejectingLane? then 1 else 0
  }

  function Total(m: Measure, ps: seq<Producer>): nat {
    if ps == [] then 0 else Weight(m, ps[0].pc) + Total(m, ps[1..])
  }

  predicate CloserHoldsLock(c: Closer) {
    c.GateLocked? || c.GatePublished? || c.TerminalLocked? || c.TerminalPublished?
  }

  /** The gate was closed while the closer held the admission lock. */
  predicate Sealed(c: Closer) { !c.Running? && !c.GateLocked? }

  /** The closer has read zero in-flight tokens after sealing the gate. */
  predicate Settled(c: Closer) {
    (c.Tokens? && c.step > 0) || c.Folding? || (c.Pending? && c.last) || Finishing(c)
  }

  predicate Finishing(c: Closer) {
    c.ReadyToTerminate? || c.TerminalLocked? || c.TerminalPublished? || c.Terminated?
  }

  /** The closer has found a known-pending count of zero after sealing the gate. */
  predicate Drained(c: Closer) { Sealed(c) && !c.GatePublished? && !(c.Pending? && !c.last) }

  ghost predicate ItemsInv(l: LaneState, ps: seq<Producer>) {
    forall it | it in l.puts ::
      && l.puts[it] == 1
      && it.pid < |ps| && it.call <= ps[it.pid].calls
      && (it.call == ps[it.pid].calls ==> PutOver(ps[it.pid].pc))
  }

  ghost predicate FlowInv(l: LaneState) {
    && l.puts == l.queue + l.hand + l.done
    && l.acked == |l.done|
    && |l.hand| <= 1
  }

  ghost predicate CountInv(l: LaneState, lane: Lane, ps: seq<Producer>) {
    && l.reservations == Total(Reservation(lane), ps)
    && l.enqueued + Total(Uncounted(lane), ps) == |l.puts|
  }

  ghost predicate LaneInv(l: LaneState, lane: Lane, ps: seq<Producer>) {
    CountInv(l, lane, ps) && FlowInv(l) && ItemsInv(l, ps)
  }

  ghost predicate LockInv(s: State) {
    && (CloserHoldsLock(s.closer) <==> s.sh.lock == ByCloser)
    && (forall i | 0 <= i < |s.producers| :: HoldsLock(s.producers[i].pc) <==> s.sh.lock == ByProducer(i))
    && (s.sh.lock.ByProducer? ==> s.sh.lock.pid < |s.producers|)
  }

  ghost predicate TotalsInv(sh: Shared, ps: seq<Producer>) {
    && sh.inflight == Total(Token, ps)
    && sh.rejected == sh.critical.rejected + sh.normal.rejected + sh.direct + Total(HalfRejected, ps)
  }

  ghost predicate SealInv(s: State) {
    && (Sealed(s.closer) ==>
          s.sh.gate != Open && forall i | 0 <= i < |s.producers| :: !OpenUnderLock(s.producers[i].pc))
    && (Settled(s.closer) ==> forall i | 0 <= i < |s.producers| :: !Live(s.producers[i].pc))
  }

  ghost predicate CloserInv(s: State) {
    var c, sh := s.closer, s.sh;
    && (c.Tokens? || c.Folding? ==> c.step <= 2)
    && (c.Pending? ==> PendingInv(sh, c.step, c.enq, c.acc))
    && (Drained(c) ==> sh.critical.acked >= sh.critical.enqueued && sh.normal.acked >= sh.normal.enqueued)
    && FoldInv(s)
  }

  ghost predicate FoldInv(s: State) {
    var c, sh := s.closer, s.sh;
    && (c.Folding? && c.step >= 1 ==> s.rejectedSeen == sh.rejected)
    && (c.Folding? && c.step >= 2 ==> s.criticalSeen == sh.critical.rejected)
    && ((c.Pending? && c.last) || Finishing(c) ==>
          s.rejectedSeen == sh.rejected && s.criticalSeen == sh.critical.rejected && s.normalSeen == sh.normal.rejected)
  }

  /** What the non-atomic reads of the known-pending count have established so far. */
  ghost predicate PendingInv(sh: Shared, step: nat, enq: nat, acc: nat) {
    && step <= 6
    && (step == 1 ==> enq == sh.critical.enqueued)
    && (step == 4 ==> enq == sh.normal.enqueued)
    && (step >= 2 && acc == 0 ==> sh.critical.acked >= sh.critical.enqueued)
    && (step >= 5 && acc == 0 ==> sh.normal.acked >= sh.normal.enqueued)
  }

  ghost predicate Inv(s: State) {
    && LockInv(s)
    && TotalsInv(s.sh, s.producers)
    && LaneInv(s.sh.critical, Critical, s.producers)
    && LaneInv(s.sh.normal, Normal, s.producers)
    && SealInv(s)
    && CloserInv(s)
  }

  // ---- sums over producers --------------------------------------------------

  lemma {:induction false} TotalUpdate(m: Measure, ps: seq<Producer>, i: nat, p: Producer)
    requires i < |ps|
    ensures Total(m, ps[i := p]) == Total(m, ps) - Weight(m, ps[i].pc) + Weight(m, p.pc)
    ensures Weight(m, ps[i].pc) <= Total(m, ps)
  {
    if i == 0 {
      assert ps[i := p][1..] == ps[1..];
    } else {
      TotalUpdate(m, ps[1..], i - 1, p);
      assert ps[i := p][1..] == ps[1..][i - 1 := p];
    }
  }

  lemma {:induction false} TotalZero(m: Measure, ps: seq<Producer>)
    ensures Total(m, ps) == 0 <==> forall i | 0 <= i < |ps| :: Weight(m, ps[i].pc) == 0
  {
    if ps != [] {
      TotalZero(m, ps[1..]);
      assert forall i | 0 <= i < |ps[1..]| :: ps[1..][i] == ps[i + 1];
    }
  }

  // ---- what one producer step does ------------------------------------------

  lemma ActLock(sh: Shared, i: nat, p: Producer, c: Choice)
    requires HoldsLock(p.pc) <==> sh.lock == ByProducer(i)
    ensures var (sh', pc') := Act(sh, i, p, c);
            && (HoldsLock(pc') <==> sh'.lock == ByProducer(i))
            && (sh'.lock == sh.lock || (sh.lock in {Free, ByProducer(i)} && sh'.lock in {Free, ByProducer(i)}))
  {
  }

  lemma ActToken(sh: Shared, i: nat, p: Producer, c: Choice)
    requires Weight(Token, p.pc) <= sh.inflight
    ensures var (sh', pc') := Act(sh, i, p, c);
            sh'.inflight == sh.inflight - Weight(Token, p.pc) + Weight(Token, pc')
  {
  }

  lemma ActRejected(sh: Shared, i: nat, p: Producer, c: Choice)
    ensures var (sh', pc') := Act(sh, i, p, c);
            sh'.rejected - sh'.direct - sh'.critical.rejected - sh'.normal.rejected - Weight(HalfRejected, pc') ==
            sh.rejected - sh.direct - sh.critical.rejected - sh.normal.rejected - Weight(HalfRejected, p.pc)
  {
    hide ActOnGate;
    hide ActOnLane;
    if OnLane(p.pc) { LaneFrame(LaneOf(sh, p.pc.lane), i, p, c); } else { GateFrame(sh, i, p.pc, c); }
  }

  /** A gate step touches neither lane and starts no reservation and no put. */
  lemma GateFrame(sh: Shared, i: nat, pc: Pc, c: Choice)
    requires !OnLane(pc)
    ensures var (sh', pc') := ActOnGate(sh, i, pc, c);
            && sh'.critical == sh.critical && sh'.normal == sh.normal && !HoldsReservation(pc')
            && sh'.rejected - sh'.direct - Weight(HalfRejected, pc') ==
               sh.rejected - sh.direct - Weight(HalfRejected, pc)
  {
  }

  /** A lane step stays on its lane, and moves exactly what its new place says. */
  lemma LaneFrame(l: LaneState, i: nat, p: Producer, c: Choice)
    requires OnLane(p.pc)
    ensures var (l', pc') := ActOnLane(l, i, p, c);
            && (HoldsReservation(pc') ==> pc'.lane == p.pc.lane)
            && l'.rejected + Weight(HalfRejected, pc') == l.rejected + Weight(HalfRejected, p.pc)
            && (Weight(Reservation(p.pc.lane), p.pc) <= l.reservations ==>
                  l'.reservations == l.reservations - Weight(Reservation(p.pc.lane), p.pc)
                                                    + Weight(Reservation(p.pc.lane), pc'))
            && l'.enqueued + Weight(Uncounted(p.pc.lane), pc') ==
               l.enqueued + Weight(Uncounted(p.pc.lane), p.pc) + if Puts(p, c, p.pc.lane) then 1 else 0
  {
  }

  lemma LaneFlow(l: LaneState, i: nat, p: Producer, c: Choice)
    requires OnLane(p.pc)
    ensures var l' := ActOnLane(l, i, p, c).0;
            && l'.hand == l.hand && l'.done == l.done && l'.acked == l.acked
            && l'.puts == (if Puts(p, c, p.pc.lane) then l.puts + multiset{Item(i, p.calls)} else l.puts)
            && l'.queue == (if Puts(p, c, p.pc.lane) then l.queue + multiset{Item(i, p.calls)} else l.queue)
  {
  }

  /** The producer puts its current call's record into the lane's queue at this step. */
  predicate Puts(p: Producer, c: Choice, lane: Lane) { p.pc == Reserved(lane) && c.yes }

  lemma ActReservation(sh: Shared, i: nat, p: Producer, c: Choice, lane: Lane)
    requires Weight(Reservation(lane), p.pc) <= LaneOf(sh, lane).reservations
    ensures var (sh', pc') := Act(sh, i, p, c);
            LaneOf(sh', lane).reservations == LaneOf(sh, lane).reservations
                                              - Weight(Reservation(lane), p.pc) + Weight(Reservation(lane), pc')
  {
    hide ActOnGate;
    hide ActOnLane;
    if OnLane(p.pc) { LaneFrame(LaneOf(sh, p.pc.lane), i, p, c); } else { GateFrame(sh, i, p.pc, c); }
  }

  lemma ActEnqueued(sh: Shared, i: nat, p: Producer, c: Choice, lane: Lane)
    ensures var (sh', pc') := Act(sh, i, p, c);
            LaneOf(sh', lane).enqueued + Weight(Uncounted(lane), pc') ==
            LaneOf(sh, lane).enqueued + Weight(Uncounted(lane), p.pc) + if Puts(p, c, lane) then 1 else 0
  {
    hide ActOnGate;
    hide ActOnLane;
    if OnLane(p.pc) { LaneFrame(LaneOf(sh, p.pc.lane), i, p, c); } else { GateFrame(sh, i, p.pc, c); }
  }

  lemma ActFlow(sh: Shared, i: nat, p: Producer, c: Choice, lane: Lane)
    ensures var (sh', pc') := Act(sh, i, p, c);
            var l, l' := LaneOf(sh, lane), LaneOf(sh', lane);
            && l'.hand == l.hand && l'.done == l.done && l'.acked == l.acked
            && l'.puts == (if Puts(p, c, lane) then l.puts + multiset{Item(i, p.calls)} else l.puts)
            && l'.queue == (if Puts(p, c, lane) then l.queue + multiset{Item(i, p.calls)} else l.queue)
  {
    hide ActOnGate;
    hide ActOnLane;
    if OnLane(p.pc) { LaneFlow(LaneOf(sh, p.pc.lane), i, p, c); } else { GateFrame(sh, i, p.pc, c); }
  }

  lemma ActPutOver(sh: Shared, i: nat, p: Producer, c: Choice)
    requires (PutOver(p.pc) && !p.pc.Idle?) || (p.pc.Reserved? && c.yes)
    ensures PutOver(Act(sh, i, p, c).1)
  {
  }

  /** Only a live producer touches the accounting, and only an OPEN gate makes a producer live. */
  lemma ActSealed(sh: Shared, i: nat, p: Producer, c: Choice)
    requires sh.gate != Open && !OpenUnderLock(p.pc)
    ensures var (sh', pc') := Act(sh, i, p, c);
            && sh'.gate == sh.gate && !OpenUnderLock(pc')
            && sh'.critical.enqueued == sh.critical.enqueued && sh'.normal.enqueued == sh.normal.enqueued
            && (!Live(p.pc) ==> !Live(pc') && SameAccounting(sh, sh'))
  {
  }

  /** No enqueued, rejected or reservation counter differs, and no record was put. */
  predicate SameAccounting(a: Shared, b: Shared) {
    && a.rejected == b.rejected && a.direct == b.direct
    && SameLaneAccounting(a.critical, b.critical) && SameLaneAccounting(a.normal, b.normal)
  }

  predicate SameLaneAccounting(a: LaneState, b: LaneState) {
    a.reservations == b.reservations && a.enqueued == b.enqueued && a.rejected == b.rejected && a.puts == b.puts
  }

  // ---- the invariant is inductive -------------------------------------------

  lemma InitInv(n: nat)
    ensures Inv(Init(n))
  {
    forall m ensures Total(m, Init(n).producers) == 0 { TotalZero(m, Init(n).producers); }
  }

  lemma ProducerKeepsLock(s: State, i: nat, c: Choice)
    requires LockInv(s) && i < |s.producers|
    ensures LockInv(StepProducer(s, i, c))
  {
    ActLock(s.sh, i, s.producers[i], c);
  }

  lemma ProducerKeepsTotals(s: State, i: nat, c: Choice)
    requires TotalsInv(s.sh, s.producers) && i < |s.producers|
    ensures var t := StepProducer(s, i, c); TotalsInv(t.sh, t.producers)
  {
    var p' := StepProducer(s, i, c).producers[i];
    TotalUpdate(Token, s.producers, i, p');
    TotalUpdate(HalfRejected, s.producers, i, p');
    ActToken(s.sh, i, s.producers[i], c);
    ActRejected(s.sh, i, s.producers[i], c);
  }

  lemma ProducerKeepsLane(s: State, i: nat, c: Choice, lane: Lane)
    requires LaneInv(LaneOf(s.sh, lane), lane, s.producers) && i < |s.producers|
    ensures var t := StepProducer(s, i, c); LaneInv(LaneOf(t.sh, lane), lane, t.producers)
  {
    var p, t := s.producers[i], StepProducer(s, i, c);
    TotalUpdate(Reservation(lane), s.producers, i, t.producers[i]);
    TotalUpdate(Uncounted(lane), s.producers, i, t.producers[i]);
    ActReservation(s.sh, i, p, c, lane);
    ActEnqueued(s.sh, i, p, c, lane);
    ActFlow(s.sh, i, p, c, lane);
    if (PutOver(p.pc) && !p.pc.Idle?) || Puts(p, c, lane) { ActPutOver(s.sh, i, p, c); }
  }

  lemma ProducerKeepsSeal(s: State, i: nat, c: Choice)
    requires SealInv(s) && CloserInv(s) && i < |s.producers|
    ensures var t := StepProducer(s, i, c); SealInv(t) && CloserInv(t)
    ensures Settled(s.closer) ==> SameAccounting(s.sh, StepProducer(s, i, c).sh)
  {
    if Sealed(s.closer) {
      ActSealed(s.sh, i, s.producers[i], c);
      ActFlow(s.sh, i, s.producers[i], c, Critical);
      ActFlow(s.sh, i, s.producers[i], c, Normal);
    }
  }

  lemma ProducerKeepsInv(s: State, i: nat, c: Choice)
    requires Inv(s) && i < |s.producers|
    ensures Inv(StepProducer(s, i, c))
    ensures Settled(s.closer) ==> SameAccounting(s.sh, StepProducer(s, i, c).sh)
  {
    ProducerKeepsLock(s, i, c);
    ProducerKeepsTotals(s, i, c);
    ProducerKeepsLane(s, i, c, Critical);
    ProducerKeepsLane(s, i, c, Normal);
    ProducerKeepsSeal(s, i, c);
  }

  lemma CloserKeepsSeal(s: State)
    requires LockInv(s) && TotalsInv(s.sh, s.producers) && SealInv(s)
    ensures SealInv(StepCloser(s))
  {
    TotalZero(Token, s.producers);
  }

  lemma CloserKeepsReads(s: State)
    requires CloserInv(s)
    ensures CloserInv(StepCloser(s))
  {
  }

  lemma CloserKeepsLock(s: State)
    requires LockInv(s)
    ensures LockInv(StepCloser(s))
  {
  }

  lemma CloserFrame(s: State)
    ensures var t := StepCloser(s);
            t.producers == s.producers &&
            t.sh == s.sh.(lock := t.sh.lock, gate := t.sh.gate)
  {
  }

  lemma CloserKeepsInv(s: State)
    requires Inv(s)
    ensures Inv(StepCloser(s)) && SameAccounting(s.sh, StepCloser(s).sh)
  {
    CloserFrame(s);
    CloserKeepsLock(s);
    CloserKeepsSeal(s);
    CloserKeepsReads(s);
  }

  lemma DrainKeepsFlow(l: LaneState, item: Item)
    requires FlowInv(l)
    ensures FlowInv(TakeItem(l, item)) && FlowInv(AckItem(l))
    ensures SameLaneAccounting(l, TakeItem(l, item)) && SameLaneAccounting(l, AckItem(l))
    ensures TakeItem(l, item).acked == l.acked <= AckItem(l).acked
  {
  }

  lemma DrainKeepsInv(s: State, lane: Lane, l: LaneState)
    requires Inv(s)
    requires FlowInv(l) && SameLaneAccounting(LaneOf(s.sh, lane), l) && LaneOf(s.sh, lane).acked <= l.acked
    ensures var t := s.(sh := SetLane(s.sh, lane, l)); Inv(t) && SameAccounting(s.sh, t.sh)
  {
  }

  /** Forcing the gate to CLOSING before the closer starts, and the reconcile gate. */
  lemma FlagsKeepInv(s: State, on: bool)
    requires Inv(s)
    ensures Inv(s.(sh := s.sh.(reconciling := on)))
    ensures s.closer == Running ==> Inv(s.(sh := s.sh.(gate := Closing)))
  {
    hide Total;
    hide FlowInv;
    hide ItemsInv;
    hide CountInv;
  }

  lemma LaneInvOf(s: State, lane: Lane)
    requires Inv(s)
    ensures FlowInv(LaneOf(s.sh, lane))
  {
  }

  lemma StepInv(s: State, a: Action)
    requires Inv(s)
    ensures Inv(Step(s, a))
    ensures Settled(s.closer) ==> SameAccounting(s.sh, Step(s, a).sh)
  {
    hide Inv;
    hide StepProducer;
    hide StepCloser;
    hide FlowInv;
    hide TakeItem;
    hide AckItem;
    match a
    case Produce(pid, choice) => if pid < |s.producers| { ProducerKeepsInv(s, pid, choice); }
    case Close => CloserKeepsInv(s);
    case ForceClosing => FlagsKeepInv(s, s.sh.reconciling);
    case Reconcile(on) => FlagsKeepInv(s, on);
    case Take(lane, item) =>
      LaneInvOf(s, lane);
      DrainKeepsFlow(LaneOf(s.sh, lane), item);
      DrainKeepsInv(s, lane, TakeItem(LaneOf(s.sh, lane), item));
    case Ack(lane) =>
      LaneInvOf(s, lane);
      DrainKeepsFlow(LaneOf(s.sh, lane), Item(0, 0));
      DrainKeepsInv(s, lane, AckItem(LaneOf(s.sh, lane)));
  }

  lemma {:induction false} RunInv(s: State, actions: seq<Action>)
    requires Inv(s)
    ensures Inv(Run(s, actions))
    decreases |actions|
  {
    if actions != [] {
      StepInv(s, actions[0]);
      RunInv(Step(s, actions[0]), actions[1..]);
    }
  }

  // ---- theorems ---------------------------------------------------------------

  /** A state some run of `n` producers, the drainer and the closer reaches. */
  ghost predicate Reachable(s: State) {
    exists n: nat, actions: seq<Action> :: s == Run(Init(n), actions)
  }

  lemma ReachableInv(s: State)
    requires Reachable(s)
    ensures Inv(s)
  {
    var n: nat, actions: seq<Action> :| s == Run(Init(n), actions);
    InitInv(n);
    RunInv(Init(n), actions);
  }

  /** Settlement is final: the closer never goes back to waiting for tokens, and the accounting stands still. */
  lemma {:induction false} SettledRun(s: State, actions: seq<Action>)
    requires Inv(s) && Settled(s.closer)
    ensures Settled(Run(s, actions).closer) && SameAccounting(s.sh, Run(s, actions).sh)
    decreases |actions|
  {
    if actions != [] {
      StepInv(s, actions[0]);
      SettledStays(s, actions[0]);
      SettledRun(Step(s, actions[0]), actions[1..]);
    }
  }

  lemma SettledStays(s: State, a: Action)
    requires Inv(s) && Settled(s.closer)
    ensures Settled(Step(s, a).closer)
  {
    TotalZero(Reservation(Critical), s.producers);
    TotalZero(Reservation(Normal), s.producers);
  }

  /** Close quiescence: after the closer has read zero in-flight tokens, no interleaving changes the accounting. */
  lemma CloseQuiescence(s: State, actions: seq<Action>)
    requires Reachable(s) && Settled(s.closer)
    ensures SameAccounting(s.sh, Run(s, actions).sh)
    ensures s.sh.critical.reservations == 0 && s.sh.normal.reservations == 0
  {
    ReachableInv(s);
    SettledRun(s, actions);
    TotalZero(Reservation(Critical), s.producers);
    TotalZero(Reservation(Normal), s.producers);
  }

  /** Every token still counted then is a provisional rejection token, and its owner can only hand it back. */
  lemma LateTokensBackOut(s: State, i: nat, c: Choice)
    requires Reachable(s) && Settled(s.closer) && i < |s.producers|
    ensures Weight(Token, s.producers[i].pc) > 0 ==> Provisional(s.producers[i].pc)
    ensures s.producers[i].pc == RejectToken ==>
              Step(s, Produce(i, c)) == s.(producers := s.producers[i := s.producers[i].(pc := RejectBackout)])
    ensures s.producers[i].pc == RejectBackout ==>
              s.sh.inflight > 0 &&
              Step(s, Produce(i, c)) == s.(sh := s.sh.(inflight := s.sh.inflight - 1),
                                           producers := s.producers[i := s.producers[i].(pc := Idle)])
  {
    ReachableInv(s);
    TotalUpdate(Token, s.producers, i, s.producers[i]);
  }

  /** Lane accounting: queued plus in hand is enqueued minus acked plus put-but-not-counted. */
  lemma LaneAccounting(s: State, lane: Lane)
    requires Reachable(s)
    ensures var l := LaneOf(s.sh, lane);
            && |l.queue| + |l.hand| == l.enqueued - l.acked + Total(Uncounted(lane), s.producers)
            && l.puts == l.queue + l.hand + l.done
            && (forall it | it in l.puts :: l.puts[it] == 1)
    ensures forall i | 0 <= i < |s.producers| && s.producers[i].pc == PutDone(lane) ::
              HoldsReservation(s.producers[i].pc) && LaneOf(s.sh, lane).reservations > 0
  {
    ReachableInv(s);
    FlowBound(LaneOf(s.sh, lane));
    forall i | 0 <= i < |s.producers| && s.producers[i].pc == PutDone(lane)
      ensures LaneOf(s.sh, lane).reservations > 0
    {
      TotalUpdate(Reservation(lane), s.producers, i, s.producers[i]);
    }
  }

  /** A known-pending count read as zero after the seal: both lanes are empty and every record was acked once. */
  lemma DrainedMeansEmpty(s: State, lane: Lane)
    requires Reachable(s) && Drained(s.closer)
    ensures var l := LaneOf(s.sh, lane);
            l.queue == multiset{} && l.hand == multiset{} && l.done == l.puts && l.acked == l.enqueued
            && forall it :: it in l.puts ==> l.done[it] == 1
  {
    ReachableInv(s);
    TotalZero(Uncounted(lane), s.producers);
    LaneAccounting(s, lane);
    var l := LaneOf(s.sh, lane);
    assert |l.queue| == 0 && |l.hand| == 0;
  }

  lemma FinishedBalance(t: State)
    requires Inv(t) && Finishing(t.closer)
    ensures t.rejectedSeen == t.criticalSeen + t.normalSeen + t.sh.direct
    ensures t.sh.critical.acked == t.sh.critical.enqueued && t.sh.normal.acked == t.sh.normal.enqueued
  {
    TotalZero(HalfRejected, t.producers);
    TotalZero(Uncounted(Critical), t.producers);
    TotalZero(Uncounted(Normal), t.producers);
    FlowBound(t.sh.critical);
    FlowBound(t.sh.normal);
  }

  lemma FlowBound(l: LaneState)
    requires FlowInv(l)
    ensures |l.puts| == |l.queue| + |l.hand| + l.acked
  {
  }

  /** The terminal projection: every rejection was folded exactly once and both lanes balance, for ever. */
  lemma TerminalAccounting(s: State, actions: seq<Action>)
    requires Reachable(s) && Finishing(s.closer)
    ensures var t := Run(s, actions);
            && t.rejectedSeen == t.sh.rejected == s.sh.rejected
            && t.criticalSeen == t.sh.critical.rejected && t.normalSeen == t.sh.normal.rejected
            && t.rejectedSeen == t.criticalSeen + t.normalSeen + t.sh.direct
            && t.sh.critical.acked == t.sh.critical.enqueued && t.sh.normal.acked == t.sh.normal.enqueued
  {
    ReachableInv(s);
    RunInv(s, actions);
    SettledRun(s, actions);
    FinishingRun(s, actions);
    FinishedBalance(Run(s, actions));
  }

  lemma {:induction false} FinishingRun(s: State, actions: seq<Action>)
    requires Finishing(s.closer)
    ensures Finishing(Run(s, actions).closer)
    decreases |actions|
  {
    if actions != [] {
      FinishingRun(Step(s, actions[0]), actions[1..]);
    }
  }

  // ---- what a call does when nobody interferes ------------------------------------------

  /** Producer `i` takes `n` steps on its own. */
  function Solo(s: State, i: nat, c: Choice, n: nat): State {
    Run(s, seq(n, _ => Produce(i, c)))
  }

  /** The shared state and the producer's own place, `n` of its steps later. */
  function Local(sh: Shared, i: nat, p: Producer, c: Choice, n: nat): (Shared, Producer)
    decreases n
  {
    if n == 0 then (sh, p)
    else
      var (sh', pc') := Act(sh, i, p, c);
      Local(sh', i, Moved(p, pc'), c, n - 1)
  }

  lemma {:induction false} SoloIsLocal(s: State, i: nat, c: Choice, n: nat)
    requires i < |s.producers|
    ensures var (sh, p) := Local(s.sh, i, s.producers[i], c, n);
            Solo(s, i, c, n) == s.(sh := sh, producers := s.producers[i := p])
    decreases n
  {
    hide Act;
    if n == 0 {
      assert s.producers[i := s.producers[i]] == s.producers;
    } else {
      var t := StepProducer(s, i, c);
      SoloIsLocal(t, i, c, n - 1);
      var actions: seq<Action> := seq(n, _ => Produce(i, c));
      assert actions[1..] == seq(n - 1, _ => Produce(i, c));
      var p' := Local(t.sh, i, t.producers[i], c, n - 1).1;
      assert t.producers[i := p'] == s.producers[i := p'];
    }
  }

  lemma LocalStep(sh: Shared, i: nat, p: Producer, c: Choice, n: nat)
    requires n > 0
    ensures var (sh', pc') := Act(sh, i, p, c); Local(sh, i, p, c, n) == Local(sh', i, Moved(p, pc'), c, n - 1)
  {
  }

  lemma LocalDone(sh: Shared, i: nat, p: Producer, c: Choice)
    ensures Local(sh, i, p, c, 0) == (sh, p)
  {
  }

  /** A valid record of the lane, and a queue that takes it. */
  function Valid(lane: Lane): Choice { Choice(true, false, false, lane) }

  /** Five steps to admission: the call holds its token with the lock free again. */
  lemma Admission(sh: Shared, i: nat, calls: nat, c: Choice, n: nat)
    requires sh.lock == Free && sh.gate == Open && !sh.reconciling && sh.inflight < 2112
    ensures Local(sh, i, Producer(Idle, calls), c, n + 5) ==
            Local(sh.(inflight := sh.inflight + 1), i, Producer(Admitted, calls + 1), c, n)
  {
    hide Local;
    hide ActOnLane;
    var held := sh.(lock := ByProducer(i));
    LocalStep(sh, i, Producer(Idle, calls), c, n + 5);
    LocalStep(held, i, Producer(BeginLocked, calls + 1), c, n + 4);
    GainsToken(held, i, calls + 1, c, n);
  }

  lemma GainsToken(held: Shared, i: nat, calls: nat, c: Choice, n: nat)
    requires !held.reconciling && held.inflight < 2112
    ensures Local(held, i, Producer(BeginGateOpen, calls), c, n + 3) ==
            Local(held.(inflight := held.inflight + 1, lock := Free), i, Producer(Admitted, calls), c, n)
  {
    hide Local;
    hide ActOnLane;
    LocalStep(held, i, Producer(BeginGateOpen, calls), c, n + 3);
    LocalStep(held, i, Producer(BeginNotReconciling, calls), c, n + 2);
    LocalStep(held.(inflight := held.inflight + 1), i, Producer(BeginCounted, calls), c, n + 1);
  }

  /** The four steps on the lane: reserve, put, count, release. */
  lemma LaneSteps(held: Shared, i: nat, calls: nat, lane: Lane, n: nat)
    ensures var l, item := LaneOf(held, lane), multiset{Item(i, calls)};
            var l' := l.(enqueued := l.enqueued + 1, queue := l.queue + item, puts := l.puts + item);
            Local(held, i, Producer(PutGateOpen(lane), calls), Valid(lane), n + 4) ==
            Local(SetLane(held, lane, l'), i, Producer(LeavingLock, calls), Valid(lane), n)
  {
    hide Local;
    hide ActOnGate;
    var c, l, item := Valid(lane), LaneOf(held, lane), multiset{Item(i, calls)};
    var l1 := l.(reservations := l.reservations + 1);
    var l2 := l1.(queue := l.queue + item, puts := l.puts + item);
    var l3 := l2.(enqueued := l.enqueued + 1);
    LocalStep(held, i, Producer(PutGateOpen(lane), calls), c, n + 4);
    LaneAct(held, i, Producer(PutGateOpen(lane), calls), c, lane);
    LocalStep(SetLane(held, lane, l1), i, Producer(Reserved(lane), calls), c, n + 3);
    LaneAct(SetLane(held, lane, l1), i, Producer(Reserved(lane), calls), c, lane);
    LocalStep(SetLane(held, lane, l2), i, Producer(PutDone(lane), calls), c, n + 2);
    LaneAct(SetLane(held, lane, l2), i, Producer(PutDone(lane), calls), c, lane);
    LocalStep(SetLane(held, lane, l3), i, Producer(EnqueueCounted(lane), calls), c, n + 1);
    LaneAct(SetLane(held, lane, l3), i, Producer(EnqueueCounted(lane), calls), c, lane);
    SetTwice(held, lane, l1, l2);
    SetTwice(held, lane, l2, l3);
    SetTwice(held, lane, l3, l3.(reservations := l.reservations));
    hide Act;
  }

  lemma LaneAct(sh: Shared, i: nat, p: Producer, c: Choice, lane: Lane)
    requires OnLane(p.pc) && p.pc.lane == lane
    ensures var (l, pc) := ActOnLane(LaneOf(sh, lane), i, p, c); Act(sh, i, p, c) == (SetLane(sh, lane, l), pc)
  {
  }

  lemma SetTwice(sh: Shared, lane: Lane, l: LaneState, l': LaneState)
    ensures SetLane(SetLane(sh, lane, l), lane, l') == SetLane(sh, lane, l') && LaneOf(SetLane(sh, lane, l), lane) == l
  {
  }

  lemma ToPut(sh: Shared, i: nat, calls: nat, lane: Lane, n: nat)
    requires sh.lock == Free && sh.gate == Open
    ensures Local(sh, i, Producer(Admitted, calls), Valid(lane), n + 2) ==
            Local(sh.(lock := ByProducer(i)), i, Producer(PutGateOpen(lane), calls), Valid(lane), n)
  {
    hide Local;
    hide ActOnLane;
    LocalStep(sh, i, Producer(Admitted, calls), Valid(lane), n + 2);
    LocalStep(sh.(lock := ByProducer(i)), i, Producer(PutLocked(lane), calls), Valid(lane), n + 1);
  }

  lemma Leaving(held: Shared, i: nat, calls: nat, c: Choice)
    requires held.inflight > 0
    ensures Local(held, i, Producer(LeavingLock, calls), c, 2) ==
            (held.(lock := Free, inflight := held.inflight - 1), Producer(Idle, calls))
  {
    hide Local;
    hide ActOnLane;
    LocalStep(held, i, Producer(LeavingLock, calls), c, 2);
    Ending(held.(lock := Free), i, calls, c);
  }

  lemma Ending(sh: Shared, i: nat, calls: nat, c: Choice)
    requires sh.inflight > 0
    ensures Local(sh, i, Producer(EndToken, calls), c, 1) ==
            (sh.(inflight := sh.inflight - 1), Producer(Idle, calls))
  {
    hide Local;
    hide ActOnLane;
    LocalStep(sh, i, Producer(EndToken, calls), c, 1);
    LocalDone(sh.(inflight := sh.inflight - 1), i, Producer(Idle, calls), c);
  }

  lemma Putting(sh: Shared, i: nat, calls: nat, lane: Lane)
    requires sh.lock == Free && sh.gate == Open && sh.inflight > 0
    ensures var l, item := LaneOf(sh, lane), multiset{Item(i, calls)};
            var l' := l.(enqueued := l.enqueued + 1, queue := l.queue + item, puts := l.puts + item);
            Local(sh, i, Producer(Admitted, calls), Valid(lane), 8) ==
            (SetLane(sh.(inflight := sh.inflight - 1), lane, l'), Producer(Idle, calls))
  {
    hide Local;
    hide Act;
    var held, l, item := sh.(lock := ByProducer(i)), LaneOf(sh, lane), multiset{Item(i, calls)};
    var l' := l.(enqueued := l.enqueued + 1, queue := l.queue + item, puts := l.puts + item);
    ToPut(sh, i, calls, lane, 6);
    LaneSteps(held, i, calls, lane, 2);
    Leaving(SetLane(held, lane, l'), i, calls, Valid(lane));
  }

  /** A refused call that takes its rejection token. */
  lemma ToReject(sh: Shared, i: nat, calls: nat, lane: Lane, n: nat)
    requires sh.gate == Open
    ensures Local(sh, i, Producer(RejectCandidate, calls), Valid(lane), n + 4) ==
            Local(sh.(inflight := sh.inflight + 1), i, Producer(Rejecting(lane, false), calls), Valid(lane), n)
  {
    hide Local;
    hide ActOnLane;
    var c, more := Valid(lane), sh.(inflight := sh.inflight + 1);
    LocalStep(sh, i, Producer(RejectCandidate, calls), c, n + 4);
    LocalStep(sh, i, Producer(RejectGateOpen, calls), c, n + 3);
    LocalStep(more, i, Producer(RejectToken, calls), c, n + 2);
    LocalStep(more, i, Producer(RejectOpen, calls), c, n + 1);
  }

  /** From a refusal while OPEN to the end of the call: one rejection, in the total and in the lane. */
  lemma Rejection(sh: Shared, i: nat, calls: nat, lane: Lane)
    requires sh.gate == Open
    ensures var l := LaneOf(sh, lane);
            Local(sh, i, Producer(RejectCandidate, calls), Valid(lane), 7) ==
            (SetLane(sh.(rejected := sh.rejected + 1), lane, l.(rejected := l.rejected + 1)), Producer(Idle, calls))
  {
    hide Local;
    hide ActOnLane;
    hide Act;
    var c, l := Valid(lane), LaneOf(sh, lane);
    var more := sh.(inflight := sh.inflight + 1);
    var counted := more.(rejected := sh.rejected + 1);
    ToReject(sh, i, calls, lane, 3);
    LocalStep(more, i, Producer(Rejecting(lane, false), calls), c, 3);
    TotalRejects(more, i, calls, lane);
    LocalStep(counted, i, Producer(RejectingLane(lane, false), calls), c, 2);
    LaneRejects(counted, i, calls, lane);
    Ending(SetLane(counted, lane, l.(rejected := l.rejected + 1)), i, calls, c);
  }

  lemma TotalRejects(sh: Shared, i: nat, calls: nat, lane: Lane)
    ensures Act(sh, i, Producer(Rejecting(lane, false), calls), Valid(lane)) ==
            (sh.(rejected := sh.rejected + 1), RejectingLane(lane, false))
  {
  }

  lemma LaneRejects(sh: Shared, i: nat, calls: nat, lane: Lane)
    ensures var l := LaneOf(sh, lane);
            Act(sh, i, Producer(RejectingLane(lane, false), calls), Valid(lane)) ==
            (SetLane(sh, lane, l.(rejected := l.rejected + 1)), EndToken)
  {
  }

  /** The lock was missed: a rejection candidate if the gate is OPEN. */
  lemma Missing(sh: Shared, i: nat, calls: nat, c: Choice, n: nat)
    requires sh.lock != Free
    ensures Local(sh, i, Producer(Idle, calls), c, n + 2) ==
            Local(sh, i, Producer(if sh.gate == Open then RejectCandidate else Idle, calls + 1), c, n)
  {
    hide Local;
    hide ActOnLane;
    LocalStep(sh, i, Producer(Idle, calls), c, n + 2);
    LocalStep(sh, i, Producer(LockMissed, calls + 1), c, n + 1);
  }

  /** A refusal under the lock: by a gate that is not OPEN, by reconciliation or by the token cap. */
  lemma Refusal(sh: Shared, i: nat, calls: nat, c: Choice, n: nat)
    requires sh.lock == Free && !(sh.gate == Open && !sh.reconciling && sh.inflight < 2112)
    ensures var p := Producer(Idle, calls);
            if sh.gate != Open then Local(sh, i, p, c, 3) == (sh, Producer(Idle, calls + 1))
            else Local(sh, i, p, c, n + if sh.reconciling then 4 else 5) ==
                 Local(sh, i, Producer(RejectCandidate, calls + 1), c, n)
  {
    hide Local;
    hide ActOnLane;
    var held, more := sh.(lock := ByProducer(i)), calls + 1;
    var k := if sh.gate != Open then 3 else if sh.reconciling then n + 4 else n + 5;
    LocalStep(sh, i, Producer(Idle, calls), c, k);
    LocalStep(held, i, Producer(BeginLocked, more), c, k - 1);
    if sh.gate != Open {
      LocalStep(held, i, Producer(BeginRefused(false), more), c, 1);
      LocalDone(sh, i, Producer(Idle, more), c);
    } else {
      LocalStep(held, i, Producer(BeginGateOpen, more), c, k - 2);
      if !sh.reconciling { LocalStep(held, i, Producer(BeginNotReconciling, more), c, k - 3); }
      LocalStep(held, i, Producer(BeginRefused(true), more), c, n + 1);
    }
  }

  /** What an undisturbed call leaves behind, on counters and records: with the lock free, the gate OPEN, no
      reconciliation and fewer than 2112 tokens out, its record is in the lane it belongs to and counted once; with
      the gate OPEN otherwise, one rejection is counted in the total and in the lane; with the gate not OPEN, nothing.
      */
  predicate CallOutcome(a: Shared, b: Shared, item: Item, lane: Lane) {
    if a.lock == Free && a.gate == Open && !a.reconciling && a.inflight < 2112 then
      b == if lane == Critical
           then a.(critical := a.critical.(enqueued := a.critical.enqueued + 1,
                                           queue := a.critical.queue + multiset{item},
                                           puts := a.critical.puts + multiset{item}))
           else a.(normal := a.normal.(enqueued := a.normal.enqueued + 1, queue := a.normal.queue + multiset{item},
                                       puts := a.normal.puts + multiset{item}))
    else if a.gate == Open then
      b == if lane == Critical
           then a.(rejected := a.rejected + 1, critical := a.critical.(rejected := a.critical.rejected + 1))
           else a.(rejected := a.rejected + 1, normal := a.normal.(rejected := a.normal.rejected + 1))
    else b == a
  }

  /** Progress: the steps of one idle producer alone end its call, and the call is refused exactly when the lock is
      taken, the gate is not OPEN, reconciliation is on or 2112 tokens are out. */
  lemma UndisturbedCall(s: State, i: nat, lane: Lane)
    requires i < |s.producers| && s.producers[i].pc == Idle
    ensures exists n | 1 <= n <= 13 ::
              var t := Solo(s, i, Choice(true, false, false, lane), n);
              var call := s.producers[i].calls + 1;
              && t == s.(sh := t.sh, producers := s.producers[i := Producer(Idle, call)])
              && CallOutcome(s.sh, t.sh, Item(i, call), lane)
  {
    hide Local;
    hide Act;
    var c, calls := Valid(lane), s.producers[i].calls;
    if s.sh.lock != Free {
      var n := if s.sh.gate == Open then 9 else 2;
      Missing(s.sh, i, calls, c, n - 2);
      LocalDone(s.sh, i, Producer(Idle, calls + 1), c);
      if s.sh.gate == Open { Rejection(s.sh, i, calls + 1, lane); }
      SoloIsLocal(s, i, c, n);
      Reveal(s, i, lane, n);
    } else if s.sh.gate == Open && !s.sh.reconciling && s.sh.inflight < 2112 {
      Admission(s.sh, i, calls, c, 8);
      Putting(s.sh.(inflight := s.sh.inflight + 1), i, calls + 1, lane);
      SoloIsLocal(s, i, c, 13);
      Reveal(s, i, lane, 13);
    } else {
      Refusal(s.sh, i, calls, c, 7);
      var n := if s.sh.gate != Open then 3 else if s.sh.reconciling then 11 else 12;
      if s.sh.gate == Open { Rejection(s.sh, i, calls + 1, lane); }
      SoloIsLocal(s, i, c, n);
      Reveal(s, i, lane, n);
    }
  }

  /** In particular the first call of a fresh facility is admitted. */
  lemma FirstCall(n: nat, i: nat, lane: Lane)
    requires i < n
    ensures exists k | 1 <= k <= 13 ::
              var sh := Solo(Init(n), i, Choice(true, false, false, lane), k).sh;
              LaneOf(sh, lane).queue == multiset{Item(i, 1)} && LaneOf(sh, lane).enqueued == 1 && sh.rejected == 0
  {
    hide Solo;
    UndisturbedCall(Init(n), i, lane);
    var k :| 1 <= k <= 13 && CallOutcome(Init(n).sh, Solo(Init(n), i, Choice(true, false, false, lane), k).sh,
                                         Item(i, 1), lane);
    assert multiset{} + multiset{Item(i, 1)} == multiset{Item(i, 1)};
    assert LaneOf(Init(n).sh, lane) == EMPTY_LANE;
  }

  /** A call while the facility is disabled, or dropped by policy, leaves no trace once it has its token: not
      admitted, a rejection token goes back uncounted; admitted, the token goes back. */
  lemma SilentCall(sh: Shared, i: nat, calls: nat, c: Choice)
    requires !c.yes && sh.inflight > 0
    ensures Local(sh, i, Producer(Admitted, calls), c, 2) == (sh.(inflight := sh.inflight - 1), Producer(Idle, calls))
    ensures Local(sh, i, Producer(RejectOpen, calls), c, 2) == (sh.(inflight := sh.inflight - 1), Producer(Idle, calls))
  {
    hide Local;
    hide ActOnLane;
    LocalStep(sh, i, Producer(Admitted, calls), c, 2);
    LocalStep(sh, i, Producer(RejectOpen, calls), c, 2);
    Ending(sh, i, calls, c);
  }

  /** From a rejection on, whoever decided it: one more in the total and in the lane, the lock and the token back. */
  lemma RejectionEnds(sh: Shared, i: nat, calls: nat, c: Choice, lane: Lane, locked: bool)
    requires sh.inflight > 0
    ensures var l := LaneOf(sh, lane);
            var counted := SetLane(sh.(rejected := sh.rejected + 1, inflight := sh.inflight - 1), lane,
                                   l.(rejected := l.rejected + 1));
            Local(sh, i, Producer(Rejecting(lane, locked), calls), c, if locked then 4 else 3) ==
            (if locked then counted.(lock := Free) else counted, Producer(Idle, calls))
  {
    hide Local;
    hide Act;
    var l, n := LaneOf(sh, lane), if locked then 4 else 3;
    var counted := sh.(rejected := sh.rejected + 1);
    var done := SetLane(counted, lane, l.(rejected := l.rejected + 1));
    LocalStep(sh, i, Producer(Rejecting(lane, locked), calls), c, n);
    RejectingActs(sh, i, calls, c, lane, locked);
    LocalStep(counted, i, Producer(RejectingLane(lane, locked), calls), c, n - 1);
    RejectingActs(counted, i, calls, c, lane, locked);
    if locked { Leaving(done, i, calls, c); } else { Ending(done, i, calls, c); }
  }

  lemma RejectingActs(sh: Shared, i: nat, calls: nat, c: Choice, lane: Lane, locked: bool)
    ensures Act(sh, i, Producer(Rejecting(lane, locked), calls), c) ==
            (sh.(rejected := sh.rejected + 1), RejectingLane(lane, locked))
    ensures var l := LaneOf(sh, lane);
            Act(sh, i, Producer(RejectingLane(lane, locked), calls), c) ==
            (SetLane(sh, lane, l.(rejected := l.rejected + 1)), if locked then LeavingLock else EndToken)
  {
  }

  /** When an admitted valid record is rejected after all, on its own lane: it is oversized, the lock is taken, the
      gate is no longer OPEN under the lock, or the queue is full, which releases the reservation first. */
  lemma RejectedAfterAdmission(sh: Shared, i: nat, calls: nat, c: Choice, lane: Lane)
    ensures c.yes && c.lane == lane && (c.oversized || sh.lock != Free) ==>
              Act(sh, i, Producer(Admitted, calls), c) == (sh, Rejecting(lane, false))
    ensures sh.gate != Open ==> Act(sh, i, Producer(PutLocked(lane), calls), c) == (sh, Rejecting(lane, true))
    ensures !c.yes && LaneOf(sh, lane).reservations > 0 ==>
              var l := LaneOf(sh, lane);
              Local(sh, i, Producer(Reserved(lane), calls), c, 2) ==
              (SetLane(sh, lane, l.(reservations := l.reservations - 1)), Producer(Rejecting(lane, true), calls))
  {
    if !c.yes && LaneOf(sh, lane).reservations > 0 {
      LocalStep(sh, i, Producer(Reserved(lane), calls), c, 2);
      LocalStep(sh, i, Producer(PutFailed(lane), calls), c, 1);
    }
  }

  /** The witness, in the form of the theorem. */
  lemma Reveal(s: State, i: nat, lane: Lane, n: nat)
    requires i < |s.producers| && 1 <= n <= 13
    requires var t := Solo(s, i, Valid(lane), n);
             var call := s.producers[i].calls + 1;
             && t == s.(sh := t.sh, producers := s.producers[i := Producer(Idle, call)])
             && CallOutcome(s.sh, t.sh, Item(i, call), lane)
    ensures exists n | 1 <= n <= 13 ::
              var t := Solo(s, i, Choice(true, false, false, lane), n);
              var call := s.producers[i].calls + 1;
              && t == s.(sh := t.sh, producers := s.producers[i := Producer(Idle, call)])
              && CallOutcome(s.sh, t.sh, Item(i, call), lane)
  {
    hide Solo;
    hide CallOutcome;
  }

  /** Without the gate OPEN a refused call takes no token, and a collector-owned call that is refused counts in the
      total only. */
  lemma OtherRejections(sh: Shared, i: nat, calls: nat, c: Choice)
    ensures sh.gate != Open ==> Act(sh, i, Producer(RejectCandidate, calls), c) == (sh, Idle)
    ensures sh.gate == Open && c.yes && c.direct && sh.inflight > 0 ==>
              Local(sh, i, Producer(RejectOpen, calls), c, 3) ==
              (sh.(rejected := sh.rejected + 1, direct := sh.direct + 1, inflight := sh.inflight - 1),
               Producer(Idle, calls))
  {
    hide Local;
    hide ActOnLane;
    LocalStep(sh, i, Producer(RejectOpen, calls), c, 3);
    var counted := sh.(rejected := sh.rejected + 1, direct := sh.direct + 1);
    LocalStep(sh, i, Producer(RejectingDirect, calls), c, 2);
    if sh.inflight > 0 { Ending(counted, i, calls, c); }
  }

  /** The reconcile gate takes the value it is given; forcing the gate turns OPEN into CLOSING before the closer
      starts. */
  lemma OutsideSteps(s: State, on: bool)
    ensures Step(s, Reconcile(on)).sh == s.sh.(reconciling := on)
    ensures s.closer == Running && s.sh.gate == Open ==> Step(s, ForceClosing) == s.(sh := s.sh.(gate := Closing))
    ensures !(s.closer == Running && s.sh.gate == Open) ==> Step(s, ForceClosing) == s
  {
  }

  // ---- draining -------------------------------------------------------------------------------

  /** One record taken and acked leaves the queue and is done, once. */
  lemma TakenAndAcked(s: State, lane: Lane, item: Item)
    requires item in LaneOf(s.sh, lane).queue && LaneOf(s.sh, lane).hand == multiset{}
    ensures var l := LaneOf(s.sh, lane);
            Run(s, [Take(lane, item), Ack(lane)]) ==
            s.(sh := SetLane(s.sh, lane, l.(queue := l.queue - multiset{item}, done := l.done + multiset{item},
                                            acked := l.acked + 1)))
  {
    hide TakeItem;
    hide AckItem;
    var l := LaneOf(s.sh, lane);
    RunTwo(s, Take(lane, item), Ack(lane));
    SetTwice(s.sh, lane, TakeItem(l, item), AckItem(TakeItem(l, item)));
    LaneTakenAndAcked(l, item);
  }

  lemma RunTwo(s: State, a: Action, b: Action)
    ensures Run(s, [a, b]) == Step(Step(s, a), b)
  {
    hide Step;
    assert [a, b][1..] == [b] && [b][1..] == [];
    assert Run(Step(s, a), [b]) == Run(Step(Step(s, a), b), []);
  }

  lemma LaneTakenAndAcked(l: LaneState, item: Item)
    requires item in l.queue && l.hand == multiset{}
    ensures AckItem(TakeItem(l, item)) ==
            l.(queue := l.queue - multiset{item}, done := l.done + multiset{item}, acked := l.acked + 1)
  {
  }

  lemma {:induction false} RunConcat(s: State, a: seq<Action>, b: seq<Action>)
    ensures Run(s, a + b) == Run(Run(s, a), b)
    decreases |a|
  {
    hide Step;
    if a == [] {
      assert a + b == b;
    } else {
      assert (a + b)[1..] == a[1..] + b;
      RunConcat(Step(s, a[0]), a[1..], b);
    }
  }

  /** The drainer alone empties a lane; only that lane changes, and it keeps what was put and counted. */
  lemma {:induction false} DrainLane(s: State, lane: Lane) returns (actions: seq<Action>)
    requires LaneOf(s.sh, lane).hand == multiset{}
    ensures var l, t := LaneOf(s.sh, lane), Run(s, actions);
            var l' := LaneOf(t.sh, lane);
            && t == s.(sh := SetLane(s.sh, lane, l')) && l'.queue == multiset{} && l'.hand == multiset{}
            && l'.done == l.done + l.queue && l'.acked == l.acked + |l.queue|
            && SameLaneAccounting(l, l')
    decreases |LaneOf(s.sh, lane).queue|
  {
    hide Step;
    var l := LaneOf(s.sh, lane);
    if l.queue == multiset{} {
      actions := [];
      assert l.done + l.queue == l.done;
    } else {
      var item :| item in l.queue;
      TakenAndAcked(s, lane, item);
      var t := Run(s, [Take(lane, item), Ack(lane)]);
      assert l.queue == l.queue - multiset{item} + multiset{item};
      var rest := DrainLane(t, lane);
      actions := [Take(lane, item), Ack(lane)] + rest;
      RunConcat(s, [Take(lane, item), Ack(lane)], rest);
      assert l.done + multiset{item} + (l.queue - multiset{item}) == l.done + l.queue;
    }
  }

  // ---- a quiet close --------------------------------------------------------------------------

  function CloseAlone(s: State, n: nat): State
    decreases n
  {
    if n == 0 then s else CloseAlone(StepCloser(s), n - 1)
  }

  lemma {:induction false} CloseAloneIsRun(s: State, n: nat)
    ensures CloseAlone(s, n) == Run(s, seq(n, _ => Close))
    decreases n
  {
    hide StepCloser;
    if n > 0 {
      CloseAloneIsRun(StepCloser(s), n - 1);
      var actions: seq<Action> := seq(n, _ => Close);
      assert actions[1..] == seq(n - 1, _ => Close);
    }
  }

  lemma CloseStep(s: State, n: nat)
    requires n > 0
    ensures CloseAlone(s, n) == CloseAlone(StepCloser(s), n - 1)
  {
  }

  /** Nothing is in flight: no token, no reservation, every enqueued record acked, the lock free. */
  predicate Quiet(sh: Shared) {
    && sh.lock == Free && sh.inflight == 0 && sh.critical.reservations == 0 && sh.normal.reservations == 0
    && sh.critical.enqueued <= sh.critical.acked && sh.normal.enqueued <= sh.normal.acked
  }

  lemma ClosesGate(s: State, n: nat)
    requires Quiet(s.sh) && s.closer == Running
    ensures CloseAlone(s, n + 3) ==
            CloseAlone(s.(sh := s.sh.(gate := if s.sh.gate == Open then Closing else s.sh.gate),
                          closer := Pending(false, 0, 0, 0)), n)
  {
    hide CloseAlone;
    var s1 := StepCloser(s);
    var s2 := StepCloser(s1);
    CloseStep(s, n + 3);
    CloseStep(s1, n + 2);
    CloseStep(s2, n + 1);
  }

  lemma CountsNothingPending(s: State, last: bool, n: nat)
    requires Quiet(s.sh) && s.closer == Pending(last, 0, 0, 0)
    ensures CloseAlone(s, n + 7) == CloseAlone(s.(closer := if last then ReadyToTerminate else Tokens(0)), n)
  {
    hide CloseAlone;
    var sh := s.sh;
    CloseStep(s, n + 7);
    CloseStep(s.(closer := Pending(last, 1, sh.critical.enqueued, 0)), n + 6);
    CloseStep(s.(closer := Pending(last, 2, sh.critical.enqueued, 0)), n + 5);
    CloseStep(s.(closer := Pending(last, 3, sh.critical.enqueued, 0)), n + 4);
    CloseStep(s.(closer := Pending(last, 4, sh.normal.enqueued, 0)), n + 3);
    CloseStep(s.(closer := Pending(last, 5, sh.normal.enqueued, 0)), n + 2);
    CloseStep(s.(closer := Pending(last, 6, sh.normal.enqueued, 0)), n + 1);
  }

  function Folded(s: State): State {
    s.(rejectedSeen := s.sh.rejected, criticalSeen := s.sh.critical.rejected, normalSeen := s.sh.normal.rejected)
  }

  lemma SettlesAndFolds(s: State, n: nat)
    requires Quiet(s.sh) && s.closer == Tokens(0)
    ensures CloseAlone(s, n + 6) == CloseAlone(Folded(s).(closer := Pending(true, 0, 0, 0)), n)
  {
    hide CloseAlone;
    var f1 := s.(rejectedSeen := s.sh.rejected);
    var f2 := f1.(criticalSeen := s.sh.critical.rejected);
    CloseStep(s, n + 6);
    CloseStep(s.(closer := Tokens(1)), n + 5);
    CloseStep(s.(closer := Tokens(2)), n + 4);
    CloseStep(s.(closer := Folding(0)), n + 3);
    CloseStep(f1.(closer := Folding(1)), n + 2);
    CloseStep(f2.(closer := Folding(2)), n + 1);
  }

  lemma Terminates(s: State)
    requires s.sh.lock == Free && s.closer == ReadyToTerminate
    ensures CloseAlone(s, 3) == s.(sh := s.sh.(gate := Closed), closer := Terminated)
  {
    hide CloseAlone;
    var s1 := StepCloser(s);
    var s2 := StepCloser(s1);
    CloseStep(s, 3);
    CloseStep(s1, 2);
    CloseStep(s2, 1);
    CloseNone(StepCloser(s2));
  }

  lemma CloseNone(s: State)
    ensures CloseAlone(s, 0) == s
  {
  }

  /** Progress: with nothing in flight the closer alone terminates in 26 steps; the gate ends CLOSED, every rejection
      is folded, and nothing else changes. */
  lemma QuietCloseTerminates(s: State)
    requires s.closer == Running && Quiet(s.sh)
    ensures Run(s, seq(26, _ => Close)) ==
            State(s.sh.(gate := Closed), s.sh.rejected, s.sh.critical.rejected, s.sh.normal.rejected, s.producers,
                  Terminated)
  {
    hide CloseAlone;
    hide Run;
    hide StepCloser;
    var closing := s.sh.(gate := if s.sh.gate == Open then Closing else s.sh.gate);
    var s1 := s.(sh := closing, closer := Pending(false, 0, 0, 0));
    ClosesGate(s, 23);
    CountsNothingPending(s1, false, 16);
    SettlesAndFolds(s1.(closer := Tokens(0)), 10);
    CountsNothingPending(Folded(s1).(closer := Pending(true, 0, 0, 0)), true, 3);
    Terminates(Folded(s1).(closer := ReadyToTerminate));
    CloseAloneIsRun(s, 26);
  }

  /** With every producer idle the drainer can finish, and what is then left is quiet. */
  lemma IdleIsQuiet(s: State)
    requires Inv(s) && s.sh.lock == Free && forall i | 0 <= i < |s.producers| :: s.producers[i].pc == Idle
    requires s.sh.critical.queue == s.sh.critical.hand == s.sh.normal.queue == s.sh.normal.hand == multiset{}
    ensures Quiet(s.sh)
  {
    TotalZero(Token, s.producers);
    TotalZero(Reservation(Critical), s.producers);
    TotalZero(Reservation(Normal), s.producers);
    TotalZero(Uncounted(Critical), s.producers);
    TotalZero(Uncounted(Normal), s.producers);
    FlowBound(s.sh.critical);
    FlowBound(s.sh.normal);
  }

  /** Progress of the whole shutdown: from every reachable state with all producers idle, nothing in the drainer's
      hand and the closer not yet started, the drainer and then the closer reach a terminal state in which every
      record ever put was acked. */
  lemma DrainAndClose(s: State)
    requires Reachable(s) && s.closer == Running && forall i | 0 <= i < |s.producers| :: s.producers[i].pc == Idle
    requires s.sh.lock == Free && s.sh.critical.hand == s.sh.normal.hand == multiset{}
    ensures exists actions ::
              var t := Run(s, actions);
              && t.closer == Terminated && t.sh.gate == Closed
              && t.sh.critical.done == s.sh.critical.puts && t.sh.normal.done == s.sh.normal.puts
              && t.rejectedSeen == s.sh.rejected
  {
    hide Run;
    hide Quiet;
    hide Inv;
    ReachableInv(s);
    var a := DrainLane(s, Critical);
    var s1 := Run(s, a);
    var b := DrainLane(s1, Normal);
    var s2 := Run(s1, b);
    RunInv(s, a);
    RunInv(s1, b);
    IdleIsQuiet(s2);
    QuietCloseTerminates(s2);
    var c: seq<Action> := seq(26, _ => Close);
    RunConcat(s, a, b);
    RunConcat(s, a + b, c);
    AllDone(s, Critical);
    AllDone(s, Normal);
    assert Run(s, a + b + c) == Run(s2, c);
  }

  lemma AllDone(s: State, lane: Lane)
    requires Inv(s) && LaneOf(s.sh, lane).hand == multiset{}
    ensures LaneOf(s.sh, lane).done + LaneOf(s.sh, lane).queue == LaneOf(s.sh, lane).puts
  {
    var l := LaneOf(s.sh, lane);
    assert l.queue + l.hand + l.done == l.done + l.queue;
  }
}
