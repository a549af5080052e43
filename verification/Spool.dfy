/**
 The durable spool: any number of producers offer records to two bounded FIFO lanes under
 byte budgets, and one writer thread takes bounded batches, writes them and stops after a
 close (BreadcrumbDurableSpool.enqueue, __take_batch, __run and close in
 src/python/common/breadcrumb_trace.py).

 Every lock section and every queue operation is one atomic step; a run is a sequence of
 actions. A batch write is one step of the writer, the one that BatchWriter.dfy describes, so
 a run also says what is on disk.
 */
module Spool {
  import opened Octets
  import opened Options
  import opened DurableRecords
  import BatchWriter

  const RECORD_MAX_BYTES: nat := 64 * 1024
  const AGGREGATE_MAX_BYTES: nat := 8 * 1024 * 1024
  const CRITICAL_BURST: nat := 8

  /** Where a producer stands inside `enqueue`. */
  datatype Producer =
    | Idle
    | Offered(record: Record)  // called, nothing checked yet
    | Checked(record: Record)  // passed the first lock section
    | Full(record: Record)     // the lane refused it, the loss is not counted yet

  /** Where the writer thread stands inside `__run`. */
  datatype Pc =
    | Starting
    | BoundaryFailed
    | Taking
    | OtherLane                               // the preferred lane was empty
    | Got(record: Record, nextBudget: nat)    // popped, byte accounts not moved yet
    | Write
    | Counted                                 // outcome counted, in-flight bytes not returned yet
    | CheckStop
    | SawStop
    | SawCriticalEmpty
    | Exited

  datatype Writer = Writer(pc: Pc, batch: seq<Record>, budget: nat)

  /** One FIFO lane; `accepted` and `taken` record, for the proof, every put and every get in order. */
  datatype Lane = Lane(capacity: nat, queue: seq<Record>, accepted: seq<Record>, taken: seq<Record>)

  datatype ByteAccount = ByteAccount(queued: nat, inflight: nat)

  datatype Flags = Flags(closing: bool, stop: bool, disabled: bool)

  /** What became of each record: refused by `enqueue`, written or dropped by the writer. */
  datatype History = History(offered: multiset<Record>, refused: seq<Record>, written: seq<Record>,
                             dropped: seq<Record>)

  datatype Shared = Shared(
    critical: Lane, normal: Lane, bytes: ByteAccount, flags: Flags, health: Health, history: History, batchSize: nat)

  /** The writer's files; `prior` is what was on disk before, `residue` what failed rollbacks left behind. */
  datatype Disk = Disk(
    limits: BatchWriter.Limits, boundary: seq<Byte>, prior: seq<Byte>, owner: BatchWriter.Owner, residue: seq<Byte>)

  datatype State = State(sh: Shared, producers: seq<Producer>, writer: Writer, disk: Disk)

  datatype Action =
    | Offer(producer: nat, record: Record)
    | Produce(producer: nat, fails: bool)       // `fails`: not a dict, or the copy raised
    | WriterStep(ok: bool, io: BatchWriter.Io)  // outcome of timed waits and of I/O
    | DisableOutput
    | Close

  // ---- producers ------------------------------------------------------------

  predicate Refuses(sh: Shared, bytes: nat) {
    sh.flags.closing || sh.flags.stop || sh.flags.disabled ||
    sh.bytes.queued + sh.bytes.inflight + bytes > AGGREGATE_MAX_BYTES
  }

  function CountLoss(h: Health, critical: bool): Health {
    if critical then h.(lost := h.lost + 1, criticalLost := h.criticalLost + 1)
    else h.(lost := h.lost + 1, normalLost := h.normalLost + 1)
  }

  function Lose(sh: Shared, r: Record): Shared {
    sh.(health := CountLoss(sh.health, r.critical),
        history := sh.history.(refused := sh.history.refused + [r]))
  }

  predicate LaneFull(l: Lane) { |l.queue| >= l.capacity }

  function Put(l: Lane, r: Record): Lane { l.(queue := l.queue + [r], accepted := l.accepted + [r]) }

  function Accept(sh: Shared, r: Record): Shared {
    sh.(critical := if r.critical then Put(sh.critical, r) else sh.critical,
        normal := if r.critical then sh.normal else Put(sh.normal, r),
        bytes := sh.bytes.(queued := sh.bytes.queued + r.bytes),
        health := sh.health.(accepted := sh.health.accepted + 1))
  }

  function ActProducer(sh: Shared, p: Producer, fails: bool): (Shared, Producer) {
    match p
    case Idle => (sh, Idle)
    case Offered(r) =>
      if fails || r.bytes > RECORD_MAX_BYTES || Refuses(sh, r.bytes) then (Lose(sh, r), Idle) else (sh, Checked(r))
    case Checked(r) =>
      if fails || Refuses(sh, r.bytes) then (Lose(sh, r), Idle)
      else if LaneFull(if r.critical then sh.critical else sh.normal) then (sh, Full(r))
      else (Accept(sh, r), Idle)
    case Full(r) => (Lose(sh, r), Idle)
  }

  // ---- writer ---------------------------------------------------------------

  function Pop(l: Lane): Lane
    requires l.queue != []
  {
    l.(queue := l.queue[1..], taken := l.taken + [l.queue[0]])
  }

  /** The writer pops the head of one lane; `nextBudget` is its burst budget once the bytes have moved. */
  function PopFrom(sh: Shared, w: Writer, critical: bool, nextBudget: nat): (Shared, Writer)
    requires (if critical then sh.critical else sh.normal).queue != []
  {
    if critical then (sh.(critical := Pop(sh.critical)), w.(pc := Got(sh.critical.queue[0], nextBudget)))
    else (sh.(normal := Pop(sh.normal)), w.(pc := Got(sh.normal.queue[0], nextBudget)))
  }

  /** The preferred lane: critical while the burst budget lasts, then normal. */
  function ActTaking(sh: Shared, w: Writer): (Shared, Writer) {
    if |w.batch| >= sh.batchSize then (sh, w.(pc := Write))
    else if w.budget > 0 then
      if sh.critical.queue == [] then (sh, w.(pc := OtherLane)) else PopFrom(sh, w, true, w.budget - 1)
    else
      if sh.normal.queue == [] then (sh, w.(pc := OtherLane)) else PopFrom(sh, w, false, CRITICAL_BURST)
  }

  /** The preferred lane was empty: the other one, or the end of the batch, or a bounded wait. */
  function ActOtherLane(sh: Shared, w: Writer, wait: bool): (Shared, Writer) {
    if w.budget > 0 && sh.normal.queue != [] then PopFrom(sh, w, false, CRITICAL_BURST)
    else if w.budget == 0 && sh.critical.queue != [] then PopFrom(sh, w, true, CRITICAL_BURST - 1)
    else if w.batch == [] || sh.flags.stop || !wait then (sh, w.(pc := Write))
    else (sh, w.(pc := Taking))
  }

  /** The source's max(0, a - b). */
  function Minus(a: nat, b: nat): nat { if a >= b then a - b else 0 }

  /** Byte accounts and health counters: after a pop, for a whole batch, and at its end. */
  function ActAccount(sh: Shared, w: Writer, ok: bool, reported: nat): (Shared, Writer)
    requires w.pc.Got? || w.pc.Write? || w.pc.Counted?
  {
    match w.pc
    case Got(r, nextBudget) =>
      (sh.(bytes := ByteAccount(Minus(sh.bytes.queued, r.bytes), sh.bytes.inflight + r.bytes)),
       Writer(Taking, w.batch + [r], nextBudget))
    case Write =>
      if w.batch == [] then (sh, w.(pc := CheckStop))
      else (CountBatch(sh, w.batch, WrittenOf(w.batch, ok, reported), ok), w.(pc := Counted))
    case Counted =>
      (sh.(bytes := sh.bytes.(inflight := Minus(sh.bytes.inflight, Bytes(w.batch)))),
       Writer(CheckStop, [], w.budget))
  }

  /** Start-up and the stop test, which reads the stop flag, then one lane, then the other. */
  function ActControl(sh: Shared, w: Writer, ok: bool): (Flags, Pc) {
    match w.pc
    case Starting => if ok then (sh.flags, Taking) else (sh.flags.(disabled := true), BoundaryFailed)
    case BoundaryFailed => (sh.flags.(stop := true), Taking)
    case CheckStop => (sh.flags, if sh.flags.stop then SawStop else Taking)
    case SawStop => (sh.flags, if sh.critical.queue == [] then SawCriticalEmpty else Taking)
    case SawCriticalEmpty => (sh.flags, if sh.normal.queue == [] then Exited else Taking)
    case _ => (sh.flags, w.pc)
  }

  function ActWriter(sh: Shared, w: Writer, ok: bool, reported: nat): (Shared, Writer) {
    if w.pc.Taking? then ActTaking(sh, w)
    else if w.pc.OtherLane? then ActOtherLane(sh, w, ok)
    else if w.pc.Got? || w.pc.Write? || w.pc.Counted? then ActAccount(sh, w, ok, reported)
    else
      var (flags, pc) := ActControl(sh, w, ok);
      (sh.(flags := flags), w.(pc := pc))
  }

  function WrittenOf(batch: seq<Record>, ok: bool, reported: nat): (k: nat)
    ensures k <= |batch|
  {
    if ok || reported > |batch| then |batch| else reported
  }

  /** One lock section: the first `k` records are written, the others lost; a failure disables output. */
  function CountBatch(sh: Shared, batch: seq<Record>, k: nat, ok: bool): Shared
    requires k <= |batch|
  {
    sh.(health := Accounted(sh.health, batch, k),
        flags := sh.flags.(disabled := sh.flags.disabled || !ok),
        history := sh.history.(written := sh.history.written + batch[..k], dropped := sh.history.dropped + batch[k..]))
  }

  // ---- whole system -----------------------------------------------------------

  function StepOffer(s: State, i: nat, r: Record): State
    requires i < |s.producers|
  {
    s.(sh := s.sh.(history := s.sh.history.(offered := s.sh.history.offered + multiset{r})),
       producers := s.producers[i := Offered(r)])
  }

  function StepProducer(s: State, i: nat, fails: bool): State
    requires i < |s.producers|
  {
    var (sh, p) := ActProducer(s.sh, s.producers[i], fails);
    s.(sh := sh, producers := s.producers[i := p])
  }

  /** The writer's latch is the flag that producers read. */
  function OwnerNow(s: State): BatchWriter.Owner { s.disk.owner.(disabled := s.sh.flags.disabled) }

  predicate Commits(w: Writer) { w.pc.Write? && w.batch != [] }

  /** What the session boundary or a batch leaves on disk. */
  function StepDisk(s: State, io: BatchWriter.Io): Disk {
    var d, o := s.disk, OwnerNow(s);
    if s.writer.pc.Starting? then
      d.(owner := BatchWriter.BoundaryCommitted(d.limits, o, d.boundary, io).0,
         residue := d.residue + BatchWriter.BoundaryResidue(d.limits, o, d.boundary, io))
    else if Commits(s.writer) then
      d.(owner := BatchWriter.BatchWritten(d.limits, o, s.writer.batch, io).0,
         residue := d.residue + BatchWriter.Residue(d.limits, o, s.writer.batch, io))
    else d
  }

  /** What the step reports: is all well, and how many records of a batch were written. */
  function Report(s: State, ok: bool, io: BatchWriter.Io): (bool, nat) {
    var d, o := s.disk, OwnerNow(s);
    if s.writer.pc.Starting? then (BatchWriter.BoundaryCommitted(d.limits, o, d.boundary, io).1, 0)
    else if Commits(s.writer) then
      var (o', k) := BatchWriter.BatchWritten(d.limits, o, s.writer.batch, io);
      (!o'.disabled, k)
    else (ok, 0)
  }

  function StepWriter(s: State, ok: bool, io: BatchWriter.Io): State {
    var (fine, reported) := Report(s, ok, io);
    var (sh, w) := ActWriter(s.sh, s.writer, fine, reported);
    s.(sh := sh, writer := w, disk := StepDisk(s, io))
  }

  function Step(s: State, a: Action): State {
    match a
    case Offer(i, r) => if i < |s.producers| && s.producers[i] == Idle then StepOffer(s, i, r) else s
    case Produce(i, fails) => if i < |s.producers| then StepProducer(s, i, fails) else s
    case WriterStep(ok, io) => StepWriter(s, ok, io)
    case DisableOutput => s.(sh := s.sh.(flags := s.sh.flags.(disabled := true)))
    case Close => s.(sh := s.sh.(flags := s.sh.flags.(closing := true, stop := true)))
  }

  function Run(s: State, actions: seq<Action>): State
    decreases |actions|
  {
    if actions == [] then s else Run(Step(s, actions[0]), actions[1..])
  }

  datatype Setup = Setup(
    producers: nat, criticalCapacity: nat, normalCapacity: nat, batchSize: nat,
    limits: BatchWriter.Limits, boundary: seq<Byte>, existing: Option<seq<Byte>>)

  function InitDisk(c: Setup): Disk {
    var files := BatchWriter.Files([], c.existing, false);
    Disk(c.limits, c.boundary, BatchWriter.Content(files), BatchWriter.Owner(files, false, false), [])
  }

  function Init(c: Setup): State {
    State(Shared(Lane(c.criticalCapacity, [], [], []), Lane(c.normalCapacity, [], [], []), ByteAccount(0, 0),
                 Flags(false, false, false), Health(0, 0, 0, 0, 0), History(multiset{}, [], [], []), c.batchSize),
          seq(c.producers, _ => Idle), Writer(Starting, [], CRITICAL_BURST), InitDisk(c))
  }

  // ---- invariant ----------------------------------------------------------------

  /** Records the writer has taken and not yet counted as written or lost. */
  function InHand(w: Writer): seq<Record> {
    if w.pc.Got? then w.batch + [w.pc.record] else if w.pc.Counted? then [] else w.batch
  }

  function GotBytes(w: Writer): nat { if w.pc.Got? then w.pc.record.bytes else 0 }

  function Pending(ps: seq<Producer>): multiset<Record> {
    if ps == [] then multiset{}
    else PendingOf(ps[0]) + Pending(ps[1..])
  }

  function PendingOf(p: Producer): multiset<Record> {
    if p.Idle? then multiset{} else multiset{p.record}
  }

  ghost predicate LaneInv(l: Lane) { l.accepted == l.taken + l.queue }

  ghost predicate BytesInv(sh: Shared, w: Writer) {
    && sh.bytes.queued == Bytes(sh.critical.queue) + Bytes(sh.normal.queue) + GotBytes(w)
    && sh.bytes.inflight == Bytes(w.batch)
    && sh.bytes.queued + sh.bytes.inflight <= AGGREGATE_MAX_BYTES
  }

  ghost predicate CountsInv(h: Health, y: History) {
    && h.written == |y.written|
    && h.lost == |y.refused| + |y.dropped|
    && h.criticalLost == CriticalCount(y.refused) + CriticalCount(y.dropped)
    && h.normalLost == h.lost - h.criticalLost
  }

  ghost predicate LanesInv(sh: Shared) {
    LaneInv(sh.critical) && LaneInv(sh.normal) &&
    sh.health.accepted == |sh.critical.accepted| + |sh.normal.accepted|
  }

  /** What was taken out of the lanes is written, dropped or in the writer's hand. */
  ghost predicate TakenInv(sh: Shared, w: Writer) {
    multiset(sh.critical.taken) + multiset(sh.normal.taken) ==
    multiset(sh.history.written) + multiset(sh.history.dropped) + multiset(InHand(w))
  }

  function AcceptedOrRefused(sh: Shared): multiset<Record> {
    multiset(sh.critical.accepted) + multiset(sh.normal.accepted) + multiset(sh.history.refused)
  }

  ghost predicate OfferedInv(sh: Shared, ps: seq<Producer>) {
    sh.history.offered == AcceptedOrRefused(sh) + Pending(ps)
  }

  ghost predicate StopInv(sh: Shared, w: Writer) {
    && (w.pc.SawStop? || w.pc.SawCriticalEmpty? || w.pc.Exited? ==> sh.flags.stop)
    && (w.pc.SawCriticalEmpty? || w.pc.Exited? ==> sh.critical.queue == [])
    && (w.pc.Exited? ==> sh.normal.queue == [])
    && (w.pc.CheckStop? || w.pc.SawStop? || w.pc.SawCriticalEmpty? || w.pc.Exited? ==> w.batch == [])
    && w.budget <= CRITICAL_BURST && (w.pc.Got? ==> w.pc.nextBudget <= CRITICAL_BURST)
  }

  ghost predicate Inv(s: State) {
    CoreInv(s.sh, s.writer) && OfferedInv(s.sh, s.producers)
  }

  // ---- records inside enqueue ------------------------------------------------------

  lemma {:induction false} PendingUpdate(ps: seq<Producer>, i: nat, p: Producer)
    requires i < |ps|
    ensures Pending(ps[i := p]) + PendingOf(ps[i]) == Pending(ps) + PendingOf(p)
  {
    if i == 0 {
      assert ps[i := p][1..] == ps[1..];
    } else {
      var rest := ps[1..];
      PendingUpdate(rest, i - 1, p);
      assert ps[i := p][1..] == rest[i - 1 := p];
      Regroup(PendingOf(ps[0]), Pending(rest[i - 1 := p]), PendingOf(ps[i]), Pending(rest), PendingOf(p));
    }
  }

  lemma Regroup<T>(a: multiset<T>, b: multiset<T>, c: multiset<T>, d: multiset<T>, e: multiset<T>)
    requires b + c == d + e
    ensures a + b + c == a + d + e
  {
    assert a + b + c == a + (b + c) && a + d + e == a + (d + e);
  }

  // ---- one lane ---------------------------------------------------------------------

  lemma PutKeeps(l: Lane, r: Record)
    requires LaneInv(l)
    ensures LaneInv(Put(l, r)) && Bytes(Put(l, r).queue) == Bytes(l.queue) + r.bytes
    ensures multiset(Put(l, r).accepted) == multiset(l.accepted) + multiset{r}
  {
    BytesAppend(l.queue, r);
  }

  lemma PopKeeps(l: Lane)
    requires LaneInv(l) && l.queue != []
    ensures LaneInv(Pop(l)) && Bytes(l.queue) == l.queue[0].bytes + Bytes(Pop(l).queue)
    ensures multiset(Pop(l).taken) == multiset(l.taken) + multiset{l.queue[0]}
  {
    BytesHead(l.queue);
  }

  // ---- producers keep the invariant -------------------------------------------------

  lemma LoseKeeps(sh: Shared, w: Writer, r: Record)
    requires CoreInv(sh, w)
    ensures CoreInv(Lose(sh, r), w)
    ensures AcceptedOrRefused(Lose(sh, r)) == AcceptedOrRefused(sh) + multiset{r}
  {
    BytesAppend(sh.history.refused, r);
  }

  lemma AcceptKeeps(sh: Shared, w: Writer, r: Record)
    requires CoreInv(sh, w) && !Refuses(sh, r.bytes)
    ensures CoreInv(Accept(sh, r), w)
    ensures AcceptedOrRefused(Accept(sh, r)) == AcceptedOrRefused(sh) + multiset{r}
  {
    hide Bytes;
    hide CriticalCount;
    var sh' := Accept(sh, r);
    if r.critical {
      PutKeeps(sh.critical, r);
      assert multiset(sh'.critical.accepted) == multiset(sh.critical.accepted) + multiset{r};
    } else {
      PutKeeps(sh.normal, r);
      assert multiset(sh'.normal.accepted) == multiset(sh.normal.accepted) + multiset{r};
    }
    assert LanesInv(sh');
    assert BytesInv(sh', w);
    assert StopInv(sh', w);
  }

  /** Everything in the invariant except where the pending records are. */
  ghost predicate CoreInv(sh: Shared, w: Writer) {
    LanesInv(sh) && BytesInv(sh, w) && CountsInv(sh.health, sh.history) && TakenInv(sh, w) && StopInv(sh, w)
  }

  lemma ProducerKeepsCore(sh: Shared, w: Writer, p: Producer, fails: bool)
    requires CoreInv(sh, w)
    ensures var (sh', p') := ActProducer(sh, p, fails);
            && CoreInv(sh', w) && sh'.history.offered == sh.history.offered
            && AcceptedOrRefused(sh') + PendingOf(p') == AcceptedOrRefused(sh) + PendingOf(p)
  {
    hide CoreInv;
    hide AcceptedOrRefused;
    match p
    case Idle =>
    case Offered(r) =>
      if fails || r.bytes > RECORD_MAX_BYTES || Refuses(sh, r.bytes) { LoseKeeps(sh, w, r); }
    case Checked(r) =>
      if fails || Refuses(sh, r.bytes) { LoseKeeps(sh, w, r); }
      else if !LaneFull(if r.critical then sh.critical else sh.normal) { AcceptKeeps(sh, w, r); }
    case Full(r) => LoseKeeps(sh, w, r);
  }

  lemma ProducerKeepsInv(s: State, i: nat, fails: bool)
    requires Inv(s) && i < |s.producers|
    ensures Inv(StepProducer(s, i, fails))
  {
    var p := s.producers[i];
    var (sh', p') := ActProducer(s.sh, p, fails);
    PendingUpdate(s.producers, i, p');
    ProducerKeepsCore(s.sh, s.writer, p, fails);
    Exchange(AcceptedOrRefused(s.sh), PendingOf(p), AcceptedOrRefused(sh'), PendingOf(p'),
             Pending(s.producers), Pending(s.producers[i := p']));
  }

  /** If `a + p == a' + p'` and `t' + p == t + p'` then `a + t == a' + t'`. */
  lemma Exchange<T>(a: multiset<T>, p: multiset<T>, a': multiset<T>, p': multiset<T>, t: multiset<T>, t': multiset<T>)
    requires a + p == a' + p' && t' + p == t + p'
    ensures a + t == a' + t'
  {
    forall x: T ensures (a + t)[x] == (a' + t')[x] {
      assert (a + p)[x] == (a' + p')[x] && (t' + p)[x] == (t + p')[x];
    }
  }

  lemma OfferKeepsInv(s: State, i: nat, r: Record)
    requires Inv(s) && i < |s.producers| && s.producers[i] == Idle
    ensures Inv(StepOffer(s, i, r))
  {
    PendingUpdate(s.producers, i, Offered(r));
    var ps' := s.producers[i := Offered(r)];
    assert Pending(ps') == Pending(s.producers) + multiset{r};
    assert AcceptedOrRefused(s.sh) + Pending(s.producers) + multiset{r} == AcceptedOrRefused(s.sh) + Pending(ps');
  }

  // ---- the writer keeps the invariant -------------------------------------------------

  lemma PopKeepsTaken(sh: Shared, w: Writer, critical: bool, nextBudget: nat)
    requires LanesInv(sh) && TakenInv(sh, w) && !w.pc.Got? && !w.pc.Counted?
    requires (if critical then sh.critical else sh.normal).queue != []
    ensures var (sh', w') := PopFrom(sh, w, critical, nextBudget); TakenInv(sh', w')
  {
    var l := if critical then sh.critical else sh.normal;
    PopKeeps(l);
    var r := l.queue[0];
    var (sh', w') := PopFrom(sh, w, critical, nextBudget);
    var before, kept := multiset(sh.critical.taken) + multiset(sh.normal.taken),
                        multiset(sh.history.written) + multiset(sh.history.dropped);
    assert multiset(InHand(w')) == multiset(InHand(w)) + multiset{r};
    assert multiset(sh'.critical.taken) + multiset(sh'.normal.taken) == before + multiset{r};
    assert before + multiset{r} == kept + (multiset(InHand(w)) + multiset{r});
  }

  lemma PopKeepsCore(sh: Shared, w: Writer, critical: bool, nextBudget: nat)
    requires CoreInv(sh, w) && (w.pc.Taking? || w.pc.OtherLane?) && nextBudget <= CRITICAL_BURST
    requires (if critical then sh.critical else sh.normal).queue != []
    ensures var (sh', w') := PopFrom(sh, w, critical, nextBudget); CoreInv(sh', w')
  {
    var (sh', w') := PopFrom(sh, w, critical, nextBudget);
    PopKeeps(if critical then sh.critical else sh.normal);
    PopKeepsTaken(sh, w, critical, nextBudget);
    assert LanesInv(sh') && StopInv(sh', w');
  }

  lemma TakingKeepsCore(sh: Shared, w: Writer)
    requires CoreInv(sh, w) && w.pc.Taking?
    ensures var (sh', w') := ActTaking(sh, w); CoreInv(sh', w')
  {
    if |w.batch| < sh.batchSize {
      if w.budget > 0 {
        if sh.critical.queue != [] { PopKeepsCore(sh, w, true, w.budget - 1); }
      } else {
        if sh.normal.queue != [] { PopKeepsCore(sh, w, false, CRITICAL_BURST); }
      }
    }
  }

  lemma OtherLaneKeepsCore(sh: Shared, w: Writer, wait: bool)
    requires CoreInv(sh, w) && w.pc.OtherLane?
    ensures var (sh', w') := ActOtherLane(sh, w, wait); CoreInv(sh', w')
  {
    if w.budget > 0 && sh.normal.queue != [] { PopKeepsCore(sh, w, false, CRITICAL_BURST); }
    else if w.budget == 0 && sh.critical.queue != [] { PopKeepsCore(sh, w, true, CRITICAL_BURST - 1); }
  }

  lemma CountBatchKeeps(sh: Shared, batch: seq<Record>, k: nat, ok: bool)
    requires k <= |batch| && CountsInv(sh.health, sh.history)
    ensures var sh' := CountBatch(sh, batch, k, ok);
            && CountsInv(sh'.health, sh'.history)
            && multiset(sh'.history.written) + multiset(sh'.history.dropped) ==
               multiset(sh.history.written) + multiset(sh.history.dropped) + multiset(batch)
  {
    CriticalCountConcat(sh.history.dropped, batch[k..]);
    assert batch == batch[..k] + batch[k..];
  }

  lemma GotKeepsCore(sh: Shared, w: Writer)
    requires CoreInv(sh, w) && w.pc.Got?
    ensures var (sh', w') := ActAccount(sh, w, true, 0); CoreInv(sh', w')
  {
    BytesAppend(w.batch, w.pc.record);
  }

  lemma WriteKeepsCore(sh: Shared, w: Writer, ok: bool, reported: nat)
    requires CoreInv(sh, w) && w.pc.Write?
    ensures var (sh', w') := ActAccount(sh, w, ok, reported); CoreInv(sh', w')
  {
    CountBatchKeeps(sh, w.batch, WrittenOf(w.batch, ok, reported), ok);
  }

  lemma CountedKeepsCore(sh: Shared, w: Writer)
    requires CoreInv(sh, w) && w.pc.Counted?
    ensures var (sh', w') := ActAccount(sh, w, true, 0); CoreInv(sh', w')
  {
    assert multiset(InHand(w)) == multiset(InHand(Writer(CheckStop, [], w.budget)));
  }

  lemma ControlKeepsCore(sh: Shared, w: Writer, ok: bool)
    requires CoreInv(sh, w) && !w.pc.Taking? && !w.pc.OtherLane? && !w.pc.Got? && !w.pc.Write? && !w.pc.Counted?
    ensures var (flags, pc) := ActControl(sh, w, ok); CoreInv(sh.(flags := flags), w.(pc := pc))
  {
    hide Bytes;
    hide CriticalCount;
  }

  lemma WriterKeepsCore(sh: Shared, w: Writer, ok: bool, reported: nat)
    requires CoreInv(sh, w)
    ensures var (sh', w') := ActWriter(sh, w, ok, reported); CoreInv(sh', w')
  {
    if w.pc.Taking? { TakingKeepsCore(sh, w); }
    else if w.pc.OtherLane? { OtherLaneKeepsCore(sh, w, ok); }
    else if w.pc.Got? { GotKeepsCore(sh, w); }
    else if w.pc.Write? { WriteKeepsCore(sh, w, ok, reported); }
    else if w.pc.Counted? { CountedKeepsCore(sh, w); }
    else { ControlKeepsCore(sh, w, ok); }
  }

  /** The writer accepts and refuses nothing. */
  lemma WriterSame(sh: Shared, w: Writer, ok: bool, reported: nat)
    ensures var sh' := ActWriter(sh, w, ok, reported).0;
            && sh'.critical.accepted == sh.critical.accepted && sh'.normal.accepted == sh.normal.accepted
            && sh'.history.refused == sh.history.refused && sh'.history.offered == sh.history.offered
  {
    hide Bytes;
    hide CriticalCount;
    hide Accounted;
  }

  lemma WriterFrame(sh: Shared, w: Writer, ok: bool, reported: nat)
    ensures var sh' := ActWriter(sh, w, ok, reported).0;
            AcceptedOrRefused(sh') == AcceptedOrRefused(sh) && sh'.history.offered == sh.history.offered
  {
    hide ActWriter;
    WriterSame(sh, w, ok, reported);
  }

  /** Setting flags, as long as stop is not taken back. */
  lemma FlagsKeepCore(sh: Shared, w: Writer, flags: Flags)
    requires CoreInv(sh, w) && (sh.flags.stop ==> flags.stop)
    ensures CoreInv(sh.(flags := flags), w) && AcceptedOrRefused(sh.(flags := flags)) == AcceptedOrRefused(sh)
  {
    hide Bytes;
    hide CriticalCount;
  }

  lemma StepInv(s: State, a: Action)
    requires Inv(s)
    ensures Inv(Step(s, a))
  {
    hide CoreInv;
    hide AcceptedOrRefused;
    hide ActWriter;
    hide Report;
    hide StepDisk;
    hide StepProducer;
    hide StepOffer;
    match a
    case Offer(i, r) => if i < |s.producers| && s.producers[i] == Idle { OfferKeepsInv(s, i, r); }
    case Produce(i, fails) => if i < |s.producers| { ProducerKeepsInv(s, i, fails); }
    case WriterStep(ok, io) =>
      var (fine, reported) := Report(s, ok, io);
      WriterKeepsCore(s.sh, s.writer, fine, reported);
      WriterFrame(s.sh, s.writer, fine, reported);
    case DisableOutput => FlagsKeepCore(s.sh, s.writer, s.sh.flags.(disabled := true));
    case Close => FlagsKeepCore(s.sh, s.writer, s.sh.flags.(closing := true, stop := true));
  }

  lemma {:induction false} RunInv(s: State, actions: seq<Action>)
    requires Inv(s)
    ensures Inv(Run(s, actions))
    decreases |actions|
  {
    if actions != [] {
      StepInv(s, actions[0]);
      RunInv(Step(s, actions[0]), actions[1..]);
    }
  }

  lemma {:induction false} NonePending(ps: seq<Producer>)
    requires forall i | 0 <= i < |ps| :: ps[i] == Idle
    ensures Pending(ps) == multiset{}
  {
    if ps != [] { NonePending(ps[1..]); }
  }

  lemma InitInv(c: Setup)
    ensures Inv(Init(c))
  {
    hide CoreInv;
    InitCore(c);
    NonePending(Init(c).producers);
    assert AcceptedOrRefused(Init(c).sh) == multiset{};
  }

  predicate EmptyLane(l: Lane) { l.queue == l.accepted == l.taken == [] }

  lemma InitCore(c: Setup)
    ensures CoreInv(Init(c).sh, Init(c).writer)
  {
    hide CoreInv;
    EmptyCore(Init(c).sh, Init(c).writer);
  }

  lemma EmptyCore(sh: Shared, w: Writer)
    requires EmptyLane(sh.critical) && EmptyLane(sh.normal) && sh.bytes == ByteAccount(0, 0)
    requires sh.health == Health(0, 0, 0, 0, 0) && sh.history == History(multiset{}, [], [], [])
    requires w == Writer(Starting, [], CRITICAL_BURST)
    ensures CoreInv(sh, w)
  {
    hide LanesInv;
    hide BytesInv;
    hide CountsInv;
    hide TakenInv;
    EmptyLanes(sh);
    EmptyBytes(sh, w);
    EmptyCounts(sh.health, sh.history);
    EmptyTaken(sh, w);
  }

  lemma EmptyLanes(sh: Shared)
    requires EmptyLane(sh.critical) && EmptyLane(sh.normal) && sh.health.accepted == 0
    ensures LanesInv(sh)
  {
  }

  lemma EmptyBytes(sh: Shared, w: Writer)
    requires sh.critical.queue == sh.normal.queue == w.batch == [] && sh.bytes == ByteAccount(0, 0) && !w.pc.Got?
    ensures BytesInv(sh, w)
  {
  }

  lemma EmptyCounts(h: Health, y: History)
    requires h == Health(0, 0, 0, 0, 0) && y.refused == y.written == y.dropped == []
    ensures CountsInv(h, y)
  {
  }

  lemma EmptyTaken(sh: Shared, w: Writer)
    requires sh.critical.taken == sh.normal.taken == sh.history.written == sh.history.dropped == InHand(w) == []
    ensures TakenInv(sh, w)
  {
  }

  ghost predicate Reachable(s: State) {
    exists c: Setup, actions: seq<Action> :: s == Run(Init(c), actions)
  }

  lemma ReachableInv(s: State)
    requires Reachable(s)
    ensures Inv(s)
  {
    var c: Setup, actions: seq<Action> :| s == Run(Init(c), actions);
    InitInv(c);
    RunInv(Init(c), actions);
  }

  // ---- theorems -----------------------------------------------------------------------

  /** Conservation: every offered record is in exactly one place, and the health counters count those places. */
  lemma Conservation(s: State)
    requires Reachable(s)
    ensures var y := s.sh.history;
            y.offered == multiset(y.written) + multiset(y.refused) + multiset(y.dropped) +
                         multiset(s.sh.critical.queue) + multiset(s.sh.normal.queue) +
                         multiset(InHand(s.writer)) + Pending(s.producers)
    ensures |s.sh.history.offered| ==
            s.sh.health.written + s.sh.health.lost + |s.sh.critical.queue| + |s.sh.normal.queue| +
            |InHand(s.writer)| + |Pending(s.producers)|
    ensures CountsInv(s.sh.health, s.sh.history)
    ensures s.sh.health.lost == s.sh.health.criticalLost + s.sh.health.normalLost
  {
    ReachableInv(s);
    var y, all := s.sh.history, multiset(s.sh.critical.accepted) + multiset(s.sh.normal.accepted);
    assert all == multiset(s.sh.critical.taken) + multiset(s.sh.normal.taken) +
                  multiset(s.sh.critical.queue) + multiset(s.sh.normal.queue);
  }

  /** The byte budget holds and none of the source's max(0, ...) clamps ever takes effect. */
  lemma BudgetAndClamps(s: State)
    requires Reachable(s)
    ensures s.sh.bytes.queued + s.sh.bytes.inflight <= AGGREGATE_MAX_BYTES
    ensures s.sh.bytes.queued == Bytes(s.sh.critical.queue) + Bytes(s.sh.normal.queue) + GotBytes(s.writer)
    ensures s.sh.bytes.inflight == Bytes(s.writer.batch)
    ensures s.writer.pc.Got? ==> s.writer.pc.record.bytes <= s.sh.bytes.queued
  {
    ReachableInv(s);
  }

  /** When the writer has exited, every accepted record was written or counted lost; nothing is ever stranded. */
  lemma NothingStranded(s: State, actions: seq<Action>)
    requires Reachable(s) && s.writer.pc == Exited
    ensures var t := Run(s, actions);
            && t.writer.pc == Exited && t.sh.critical.queue == [] && t.sh.normal.queue == []
            && multiset(t.sh.critical.accepted) + multiset(t.sh.normal.accepted) ==
               multiset(t.sh.history.written) + multiset(t.sh.history.dropped)
            && t.sh.health.accepted == t.sh.health.written + |t.sh.history.dropped|
  {
    ReachableInv(s);
    RunInv(s, actions);
    ExitedRun(s, actions);
    ExitedBalance(Run(s, actions));
  }

  lemma ExitedBalance(t: State)
    requires Inv(t) && t.writer.pc == Exited
    ensures multiset(t.sh.critical.accepted) + multiset(t.sh.normal.accepted) ==
            multiset(t.sh.history.written) + multiset(t.sh.history.dropped)
    ensures t.sh.health.accepted == t.sh.health.written + |t.sh.history.dropped|
  {
    assert t.sh.critical.taken == t.sh.critical.accepted && t.sh.normal.taken == t.sh.normal.accepted;
    assert |multiset(t.sh.critical.accepted) + multiset(t.sh.normal.accepted)| == t.sh.health.accepted;
  }

  lemma {:induction false} ExitedRun(s: State, actions: seq<Action>)
    requires s.writer.pc == Exited
    ensures Run(s, actions).writer.pc == Exited
    decreases |actions|
  {
    if actions != [] { ExitedRun(Step(s, actions[0]), actions[1..]); }
  }

  /** Each lane is taken in the order in which it accepted. */
  lemma LaneOrder(s: State)
    requires Reachable(s)
    ensures s.sh.critical.accepted == s.sh.critical.taken + s.sh.critical.queue
    ensures s.sh.normal.accepted == s.sh.normal.taken + s.sh.normal.queue
  {
    ReachableInv(s);
  }

  // ---- bounded-burst fairness -----------------------------------------------------------

  /** How many more critical records the writer may take before it must turn to a waiting normal one. */
  function Allowance(w: Writer): nat {
    if w.pc.Got? then w.pc.nextBudget
    else if w.pc.OtherLane? && w.budget == 0 then CRITICAL_BURST
    else w.budget
  }

  /** Throughout the run a normal record is waiting and none is taken. */
  ghost predicate NormalKeptWaiting(s: State, actions: seq<Action>)
    decreases |actions|
  {
    && s.sh.normal.queue != []
    && (actions == [] ||
        (Step(s, actions[0]).sh.normal.taken == s.sh.normal.taken &&
         NormalKeptWaiting(Step(s, actions[0]), actions[1..])))
  }

  lemma WriterAllowance(sh: Shared, w: Writer, ok: bool, reported: nat)
    requires sh.normal.queue != [] && StopInv(sh, w)
    requires ActWriter(sh, w, ok, reported).0.normal.taken == sh.normal.taken
    ensures var (sh', w') := ActWriter(sh, w, ok, reported);
            |sh'.critical.taken| + Allowance(w') <= |sh.critical.taken| + Allowance(w)
  {
  }

  lemma AllowanceStep(s: State, a: Action)
    requires Inv(s) && s.sh.normal.queue != []
    requires Step(s, a).sh.normal.taken == s.sh.normal.taken
    ensures |Step(s, a).sh.critical.taken| + Allowance(Step(s, a).writer) <= |s.sh.critical.taken| + Allowance(s.writer)
  {
    match a
    case WriterStep(ok, io) =>
      var (fine, reported) := Report(s, ok, io);
      WriterAllowance(s.sh, s.writer, fine, reported);
    case Produce(i, fails) => if i < |s.producers| { ProducerFrame(s.sh, s.producers[i], fails); }
    case _ =>
  }

  lemma ProducerFrame(sh: Shared, p: Producer, fails: bool)
    ensures var sh' := ActProducer(sh, p, fails).0;
            sh'.critical.taken == sh.critical.taken && sh'.normal.taken == sh.normal.taken
  {
  }

  /** While a normal record waits, at most eight critical records are taken in a row, across batch boundaries. */
  lemma {:induction false} BoundedBurst(s: State, actions: seq<Action>)
    requires Inv(s) && NormalKeptWaiting(s, actions)
    ensures |Run(s, actions).sh.critical.taken| <= |s.sh.critical.taken| + Allowance(s.writer)
    ensures Allowance(s.writer) <= CRITICAL_BURST
    decreases |actions|
  {
    if actions != [] {
      StepInv(s, actions[0]);
      AllowanceStep(s, actions[0]);
      BoundedBurst(Step(s, actions[0]), actions[1..]);
    }
  }

  // ---- what is on disk ----------------------------------------------------------------------

  function BoundaryLine(d: Disk): seq<Byte> { if d.owner.boundaryWritten then d.boundary else [] }

  /** All files together are what was there before, the session boundary, the written records' lines in order, and
      what failed rollbacks left behind, after which nothing more is written. */
  ghost predicate DiskInv(d: Disk, starting: bool, disabled: bool, written: seq<Record>) {
    && BatchWriter.Content(d.owner.files) == d.prior + BoundaryLine(d) + Lines(written) + d.residue
    && (d.residue != [] ==> disabled)
    && (!d.owner.boundaryWritten ==> written == [])
    && (starting ==> !d.owner.boundaryWritten)
  }

  ghost predicate OnDisk(s: State) {
    DiskInv(s.disk, s.writer.pc.Starting?, s.sh.flags.disabled, s.sh.history.written)
  }

  /** What a writer step does to the records counted as written and to the flag that stops output. */
  lemma WriterCounts(sh: Shared, w: Writer, ok: bool, reported: nat)
    ensures var (sh', w') := ActWriter(sh, w, ok, reported);
            && sh'.history.written == sh.history.written +
                                      (if Commits(w) then w.batch[..WrittenOf(w.batch, ok, reported)] else [])
            && sh'.flags.disabled == (sh.flags.disabled || (!ok && (w.pc.Starting? || Commits(w))))
            && !w'.pc.Starting?
  {
    hide CriticalCount;
    hide Bytes;
  }

  lemma BoundaryOnDisk(s: State, io: BatchWriter.Io)
    requires OnDisk(s) && s.writer.pc.Starting?
    ensures var ok := Report(s, true, io).0;
            DiskInv(StepDisk(s, io), false, s.sh.flags.disabled || !ok, s.sh.history.written)
  {
    hide Lines;
    hide BatchWriter.BoundaryCommitted;
    hide BatchWriter.BoundaryResidue;
    hide BatchWriter.Content;
    var d, o := s.disk, OwnerNow(s);
    BatchWriter.TruthfulBoundary(d.limits, o, d.boundary, io);
    BatchWriter.NoLines(s.sh.history.written);
    assert s.sh.history.written[..0] == [];
    var was, left := BatchWriter.Content(d.owner.files), BatchWriter.BoundaryResidue(d.limits, o, d.boundary, io);
    assert was == d.prior + d.residue;
    if d.residue == [] {
      assert was == d.prior;
    } else {
      assert left == [] && d.residue + left == d.residue;
    }
  }

  lemma BatchOnDisk(s: State, io: BatchWriter.Io)
    requires OnDisk(s) && Commits(s.writer)
    ensures var (ok, k) := Report(s, true, io);
            && k == WrittenOf(s.writer.batch, ok, k)
            && DiskInv(StepDisk(s, io), false, s.sh.flags.disabled || !ok, s.sh.history.written + s.writer.batch[..k])
  {
    hide Lines;
    hide BatchWriter.BatchWritten;
    hide BatchWriter.Residue;
    hide BatchWriter.Content;
    var d, o, batch := s.disk, OwnerNow(s), s.writer.batch;
    var (o', k) := BatchWriter.BatchWritten(d.limits, o, batch, io);
    BatchWriter.TruthfulBatch(d.limits, o, batch, io);
    LinesConcat(s.sh.history.written, batch[..k]);
    Appended(d.prior + BoundaryLine(d), Lines(s.sh.history.written), Lines(batch[..k]));
    BatchWriter.NoLines(batch);
  }

  lemma Appended(a: seq<Byte>, b: seq<Byte>, c: seq<Byte>)
    ensures a + (b + c) == a + b + c && a + b + [] == a + b && b + [] == b
  {
  }

  lemma StepOnDisk(s: State, a: Action)
    requires OnDisk(s)
    ensures OnDisk(Step(s, a))
  {
    hide DiskInv;
    hide ActWriter;
    hide StepDisk;
    hide Report;
    match a
    case Offer(i, r) =>
    case Produce(i, fails) => if i < |s.producers| { ProducerFrame(s.sh, s.producers[i], fails); }
    case WriterStep(ok, io) => WriterOnDisk(s, ok, io);
    case DisableOutput => MoreDisabled(s.disk, s.writer.pc.Starting?, s.sh.flags.disabled, true, s.sh.history.written);
    case Close =>
  }

  lemma MoreDisabled(d: Disk, starting: bool, disabled: bool, disabled': bool, written: seq<Record>)
    requires DiskInv(d, starting, disabled, written) && (disabled ==> disabled')
    ensures DiskInv(d, starting, disabled', written) && DiskInv(d, false, disabled', written)
  {
  }

  lemma WriterOnDisk(s: State, ok: bool, io: BatchWriter.Io)
    requires OnDisk(s)
    ensures OnDisk(StepWriter(s, ok, io))
  {
    hide DiskInv;
    hide ActWriter;
    hide BatchWriter.BoundaryCommitted;
    hide BatchWriter.BatchWritten;
    hide BatchWriter.BoundaryResidue;
    hide BatchWriter.Residue;
    var (fine, reported) := Report(s, ok, io);
    WriterCounts(s.sh, s.writer, fine, reported);
    assert s.sh.history.written + [] == s.sh.history.written;
    if s.writer.pc.Starting? {
      BoundaryOnDisk(s, io);
    } else if Commits(s.writer) {
      BatchOnDisk(s, io);
    } else {
      MoreDisabled(s.disk, false, s.sh.flags.disabled, s.sh.flags.disabled, s.sh.history.written);
    }
  }

  lemma {:induction false} RunOnDisk(s: State, actions: seq<Action>)
    requires OnDisk(s)
    ensures OnDisk(Run(s, actions)) && SameDisk(s.disk, Run(s, actions).disk)
    decreases |actions|
  {
    hide OnDisk;
    if actions != [] {
      StepOnDisk(s, actions[0]);
      StepSameDisk(s, actions[0]);
      RunOnDisk(Step(s, actions[0]), actions[1..]);
    }
  }

  /** The same session: what was there before and the boundary line do not change. */
  predicate SameDisk(a: Disk, b: Disk) { a.prior == b.prior && a.boundary == b.boundary && a.limits == b.limits }

  lemma StepSameDisk(s: State, a: Action)
    ensures SameDisk(s.disk, Step(s, a).disk)
  {
    hide ActWriter;
    hide ActProducer;
    hide Report;
  }

  /** In every reachable state the rotated files and the active file together hold what was there at the start, the
      session boundary if it was committed, exactly the records that health counts as written, in order and whole, and
      then what failed rollbacks left behind, which is nothing as long as output is enabled. */
  lemma DiskAgreesWithHealth(c: Setup, actions: seq<Action>)
    ensures AgreesWithHealth(c, Run(Init(c), actions))
  {
    hide *;
    InitInv(c);
    InitOnDisk(c);
    RunInv(Init(c), actions);
    RunOnDisk(Init(c), actions);
    Agreement(c, Run(Init(c), actions));
  }

  ghost predicate AgreesWithHealth(c: Setup, s: State) {
    && BatchWriter.Content(s.disk.owner.files) ==
       InitDisk(c).prior + (if s.disk.owner.boundaryWritten then c.boundary else []) +
       Lines(s.sh.history.written) + s.disk.residue
    && |s.sh.history.written| == s.sh.health.written
    && (s.disk.residue != [] ==> s.sh.flags.disabled)
  }

  lemma Agreement(c: Setup, s: State)
    requires Inv(s) && OnDisk(s) && SameDisk(Init(c).disk, s.disk)
    ensures AgreesWithHealth(c, s)
  {
    hide Lines;
    hide BatchWriter.Content;
    WrittenIsCounted(s);
    hide CoreInv;
  }

  lemma InitOnDisk(c: Setup)
    ensures OnDisk(Init(c))
  {
    Appended(InitDisk(c).prior, [], []);
  }

  lemma WrittenIsCounted(s: State)
    requires Inv(s)
    ensures |s.sh.history.written| == s.sh.health.written
  {
    hide Bytes;
  }

  predicate RollbacksSucceed(actions: seq<Action>) {
    forall a | a in actions && a.WriterStep? :: a.io.rollbackOk
  }

  /** And nothing is left behind if every rollback that is needed succeeds. */
  lemma {:induction false} NothingLeftBehind(s: State, actions: seq<Action>)
    requires s.disk.residue == [] && RollbacksSucceed(actions)
    ensures Run(s, actions).disk.residue == []
    decreases |actions|
  {
    if actions != [] {
      if actions[0].WriterStep? { CleanStep(s, actions[0].io); }
      NothingLeftBehind(Step(s, actions[0]), actions[1..]);
    }
  }

  lemma CleanStep(s: State, io: BatchWriter.Io)
    requires s.disk.residue == [] && io.rollbackOk
    ensures StepDisk(s, io).residue == []
  {
    BatchWriter.TruthfulBatch(s.disk.limits, OwnerNow(s), s.writer.batch, io);
    BatchWriter.TruthfulBoundary(s.disk.limits, OwnerNow(s), s.disk.boundary, io);
  }
}
