/**
 What the durable spool achieves, beside what it never does wrong: offers with room are accepted into their lane, a
 closed writer drains both lanes and exits, and in a session without I/O faults everything accepted is on disk.
 */
module SpoolProgress {
  import opened Octets
  import opened Options
  import opened DurableRecords
  import opened Spool
  import BatchWriter

  // ---- lanes hold their own kind, within capacity --------------------------------------

  ghost predicate OwnKind(sh: Shared) {
    && (forall r | r in sh.critical.accepted :: r.critical)
    && (forall r | r in sh.normal.accepted :: !r.critical)
    && |sh.critical.queue| <= sh.critical.capacity && |sh.normal.queue| <= sh.normal.capacity
  }

  predicate SameCapacity(a: Shared, b: Shared) {
    a.critical.capacity == b.critical.capacity && a.normal.capacity == b.normal.capacity && a.batchSize == b.batchSize
  }

  lemma ProducerKind(sh: Shared, p: Producer, fails: bool)
    requires OwnKind(sh)
    ensures var sh' := ActProducer(sh, p, fails).0; OwnKind(sh') && SameCapacity(sh, sh')
  {
  }

  lemma WriterKind(sh: Shared, w: Writer, ok: bool, reported: nat)
    requires OwnKind(sh)
    ensures var sh' := ActWriter(sh, w, ok, reported).0; OwnKind(sh') && SameCapacity(sh, sh')
  {
    hide Accounted;
    hide Bytes;
  }

  lemma StepKind(s: State, a: Action)
    requires OwnKind(s.sh)
    ensures OwnKind(Step(s, a).sh) && SameCapacity(s.sh, Step(s, a).sh)
  {
    hide ActProducer;
    hide ActWriter;
    hide StepDisk;
    hide Report;
    match a
    case Produce(i, fails) => if i < |s.producers| { ProducerKind(s.sh, s.producers[i], fails); }
    case WriterStep(ok, io) =>
      var (fine, reported) := Report(s, ok, io);
      WriterKind(s.sh, s.writer, fine, reported);
    case _ =>
  }

  lemma {:induction false} RunKind(s: State, actions: seq<Action>)
    requires OwnKind(s.sh)
    ensures OwnKind(Run(s, actions).sh) && SameCapacity(s.sh, Run(s, actions).sh)
    decreases |actions|
  {
    hide Step;
    hide OwnKind;
    if actions != [] {
      StepKind(s, actions[0]);
      RunKind(Step(s, actions[0]), actions[1..]);
    }
  }

  /** In every run the critical lane accepts critical records only, the normal lane the others only, and neither holds
      more than its capacity. */
  lemma LanesHoldTheirOwn(c: Setup, actions: seq<Action>)
    ensures var sh := Run(Init(c), actions).sh;
            && (forall r | r in sh.critical.accepted :: r.critical)
            && (forall r | r in sh.normal.accepted :: !r.critical)
            && |sh.critical.queue| <= c.criticalCapacity && |sh.normal.queue| <= c.normalCapacity
  {
    RunKind(Init(c), actions);
  }

  // ---- which record is taken next ----------------------------------------------------------

  /** The record that the writer has just taken, if any. */
  function Taken(w: Writer): Option<Record> { if w.pc.Got? then Some(w.pc.record) else None }

  /** With room in the batch the next record is the oldest critical one while the burst budget lasts, then the oldest
      normal one, which renews the budget of eight; an empty lane yields to the other. */
  lemma TakesInTurn(sh: Shared, w: Writer, ok: bool)
    requires w.pc == Taking && |w.batch| < sh.batchSize && sh.critical.queue + sh.normal.queue != []
    ensures var (sh1, w1) := ActWriter(sh, w, ok, 0);
            var w2 := if Taken(w1).Some? then w1 else ActWriter(sh1, w1, ok, 0).1;
            && Taken(w2) == Some(if sh.normal.queue == [] || (w.budget > 0 && sh.critical.queue != [])
                                 then sh.critical.queue[0] else sh.normal.queue[0])
            && (sh.normal.queue != [] && (w.budget == 0 || sh.critical.queue == []) ==> w2.pc.nextBudget == 8)
            && ((w.budget > 0 && sh.critical.queue != []) ==> w2.pc.nextBudget == w.budget - 1)
            && (w.budget == 0 && sh.normal.queue == [] ==> w2.pc.nextBudget == 7)
  {
  }

  /** With both lanes empty a batch is written as it is when it is empty, a stop is requested or the wait was in vain;
      otherwise the writer looks again. */
  lemma BatchEnds(sh: Shared, w: Writer, ok: bool)
    requires w.pc == OtherLane && sh.critical.queue == [] && sh.normal.queue == []
    ensures ActWriter(sh, w, ok, 0) ==
            (sh, w.(pc := if w.batch != [] && !sh.flags.stop && ok then Taking else Write))
  {
  }

  // ---- an offer that nobody disturbs -----------------------------------------------------

  /** There is room: nothing is closing or disabled, and neither record, budget nor lane is too big. */
  predicate Room(sh: Shared, r: Record) {
    && !sh.flags.closing && !sh.flags.stop && !sh.flags.disabled
    && r.bytes <= 65536 && sh.bytes.queued + sh.bytes.inflight + r.bytes <= 8388608
    && if r.critical then |sh.critical.queue| < sh.critical.capacity else |sh.normal.queue| < sh.normal.capacity
  }

  /** With room the record is last in its own lane and counted as accepted; otherwise it is counted as lost there. */
  ghost predicate OfferOutcome(a: Shared, b: Shared, r: Record) {
    var offered := a.history.(offered := a.history.offered + multiset{r});
    if Room(a, r) then
      b == a.(critical := if r.critical
                          then a.critical.(queue := a.critical.queue + [r], accepted := a.critical.accepted + [r])
                          else a.critical,
              normal := if r.critical then a.normal
                        else a.normal.(queue := a.normal.queue + [r], accepted := a.normal.accepted + [r]),
              bytes := ByteAccount(a.bytes.queued + r.bytes, a.bytes.inflight),
              health := a.health.(accepted := a.health.accepted + 1), history := offered)
    else
      b == a.(health := a.health.(lost := a.health.lost + 1,
                                  criticalLost := a.health.criticalLost + (if r.critical then 1 else 0),
                                  normalLost := a.health.normalLost + (if r.critical then 0 else 1)),
              history := offered.(refused := a.history.refused + [r]))
  }

  /** The steps of one offer after it was made; once its producer is idle again, further steps do nothing. */
  lemma OfferSteps(sh: Shared, r: Record)
    ensures var (sh1, p1) := ActProducer(sh, Offered(r), false);
            var (sh2, p2) := ActProducer(sh1, p1, false);
            var (sh3, p3) := ActProducer(sh2, p2, false);
            && p3 == Idle
            && (if Room(sh, r) then sh3 == Accept(sh, r) else sh3 == Lose(sh, r))
  {
  }

  lemma OfferMeans(a: Shared, r: Record)
    ensures var sh := a.(history := a.history.(offered := a.history.offered + multiset{r}));
            OfferOutcome(a, if Room(a, r) then Accept(sh, r) else Lose(sh, r), r) && Room(sh, r) == Room(a, r)
  {
  }

  /** An undisturbed offer is accepted exactly when there is room for it. */
  lemma UndisturbedOffer(s: State, i: nat, r: Record)
    requires i < |s.producers| && s.producers[i] == Idle
    ensures var t := Run(s, [Offer(i, r), Produce(i, false), Produce(i, false), Produce(i, false)]);
            t == s.(sh := t.sh) && OfferOutcome(s.sh, t.sh, r)
  {
    hide ActProducer;
    hide OfferOutcome;
    hide Room;
    var next := Produce(i, false);
    var s1 := StepOffer(s, i, r);
    var s2 := StepProducer(s1, i, false);
    var s3 := StepProducer(s2, i, false);
    var s4 := StepProducer(s3, i, false);
    OfferSteps(s1.sh, r);
    OfferMeans(s.sh, r);
    RunFour(s, Offer(i, r), next);
    assert s4.producers == s.producers;
  }

  /** In particular the first offer of a session is accepted, if the record and the capacities allow it. */
  lemma FirstOffer(c: Setup, i: nat, r: Record)
    requires i < c.producers && r.bytes <= 65536 && (if r.critical then c.criticalCapacity else c.normalCapacity) > 0
    ensures var sh := Run(Init(c), [Offer(i, r), Produce(i, false), Produce(i, false), Produce(i, false)]).sh;
            sh.health.accepted == 1 && (if r.critical then sh.critical else sh.normal).queue == [r]
  {
    hide Run;
    UndisturbedOffer(Init(c), i, r);
    assert Room(Init(c).sh, r);
  }

  lemma RunFour(s: State, a: Action, b: Action)
    ensures Run(s, [a, b, b, b]) == Step(Step(Step(Step(s, a), b), b), b)
  {
    hide Step;
    var s1 := Step(s, a);
    assert [a, b, b, b][1..] == [b, b, b] && [b, b, b][1..] == [b, b] && [b, b][1..] == [b] && [b][1..] == [];
    assert Run(s1, [b, b, b]) == Run(Step(s1, b), [b, b]) == Run(Step(Step(s1, b), b), [b]);
    assert Run(Step(Step(s1, b), b), [b]) == Run(Step(Step(Step(s1, b), b), b), []);
  }

  // ---- a closed writer drains and exits ----------------------------------------------------

  function Waiting(sh: Shared): nat { |sh.critical.queue| + |sh.normal.queue| }

  /** How far the writer is from taking a record, or from the exit when none waits. */
  function Distance(sh: Shared, w: Writer): nat {
    match w.pc
    case Starting => 30
    case BoundaryFailed => 29
    case Got(_, _) => 20
    case Taking => if w.batch != [] then 12 else if Waiting(sh) > 0 then 5 else 15
    case OtherLane =>
      if w.batch != [] then 11 else if (if w.budget > 0 then sh.normal else sh.critical).queue != [] then 4 else 14
    case Write => 10
    case Counted => 9
    case CheckStop => 8
    case SawStop => 7
    case SawCriticalEmpty => 6
    case Exited => 0
  }

  lemma WriterAdvances(sh: Shared, w: Writer, ok: bool, reported: nat)
    requires sh.flags.stop && sh.batchSize >= 1 && w.pc != Exited && StopInv(sh, w)
    ensures var (sh', w') := ActWriter(sh, w, ok, reported);
            && sh'.flags.stop && sh'.batchSize == sh.batchSize
            && (Waiting(sh') < Waiting(sh) || (Waiting(sh') == Waiting(sh) && Distance(sh', w') < Distance(sh, w)))
  {
    hide Accounted;
    hide Bytes;
  }

  /** The writer alone, with these outcomes. */
  function WriterAlone(s: State, io: BatchWriter.Io, n: nat): State {
    Run(s, seq(n, _ => WriterStep(true, io)))
  }

  lemma OneMore(s: State, io: BatchWriter.Io, n: nat)
    ensures WriterAlone(s, io, n + 1) == WriterAlone(Step(s, WriterStep(true, io)), io, n)
  {
    var actions: seq<Action> := seq(n + 1, _ => WriterStep(true, io));
    assert actions[1..] == seq(n, _ => WriterStep(true, io));
  }

  lemma {:induction false} Drains(s: State, io: BatchWriter.Io) returns (n: nat)
    requires Inv(s) && s.sh.flags.stop && s.sh.batchSize >= 1
    ensures WriterAlone(s, io, n).writer.pc == Exited
    decreases Waiting(s.sh), Distance(s.sh, s.writer)
  {
    hide ActWriter;
    hide StepDisk;
    hide Report;
    hide Waiting;
    hide Distance;
    if s.writer.pc == Exited {
      n := 0;
      assert WriterAlone(s, io, 0) == s;
    } else {
      var t := Step(s, WriterStep(true, io));
      var (fine, reported) := Report(s, true, io);
      InvStop(s);
      WriterAdvances(s.sh, s.writer, fine, reported);
      StepInv(s, WriterStep(true, io));
      var m := Drains(t, io);
      OneMore(s, io, m);
      n := m + 1;
    }
  }

  lemma InvStop(s: State)
    requires Inv(s)
    ensures StopInv(s.sh, s.writer)
  {
  }

  /** Progress: after a close in any reachable state the writer alone drains both lanes and exits, whatever its I/O
      does. */
  lemma WriterExits(s: State, io: BatchWriter.Io)
    requires Reachable(s) && s.sh.batchSize >= 1
    ensures exists n :: WriterAlone(Step(s, Close), io, n).writer.pc == Exited
  {
    hide WriterAlone;
    hide Inv;
    ReachableInv(s);
    StepInv(s, Close);
    var n := Drains(Step(s, Close), io);
  }

  /** After a close, and after output is disabled, an offer is counted as lost and nothing is accepted. */
  lemma RefusedAfterwards(s: State, a: Action, i: nat, r: Record)
    requires (a == Close || a == DisableOutput) && i < |s.producers| && s.producers[i] == Idle
    ensures var t := Run(Step(s, a), [Offer(i, r), Produce(i, false), Produce(i, false), Produce(i, false)]);
            && t.sh.health.accepted == s.sh.health.accepted && t.sh.health.lost == s.sh.health.lost + 1
            && t.sh.critical == s.sh.critical && t.sh.normal == s.sh.normal
  {
    hide Run;
    UndisturbedOffer(Step(s, a), i, r);
  }

  /** A writer whose session boundary failed exits without a close. */
  lemma FailedBoundaryExits(s: State, io: BatchWriter.Io)
    requires Reachable(s) && s.writer.pc == BoundaryFailed && s.sh.batchSize >= 1
    ensures exists n :: WriterAlone(s, io, n).writer.pc == Exited
  {
    hide WriterAlone;
    hide Inv;
    ReachableInv(s);
    var t := Step(s, WriterStep(true, io));
    StepInv(s, WriterStep(true, io));
    var n := Drains(t, io);
    OneMore(s, io, n);
  }

  // ---- a session without faults loses nothing that it accepted --------------------------------

  /** The limits as the constructor demands them, room for the boundary, for what is there, and for a full batch of
      lines of at most `line` bytes. */
  predicate Roomy(c: Setup, line: nat) {
    && c.limits.rotateBytes <= c.limits.maxBytes && |c.boundary| <= c.limits.maxBytes
    && (c.existing.Some? ==> |c.existing.value| <= c.limits.maxBytes)
    && c.batchSize * line <= c.limits.maxBytes
  }

  predicate Fits(r: Record, line: nat) { r.encoding.Line? && |r.encoding.text| <= line }

  /** No I/O call fails, nobody disables output, and every offered record fits. */
  predicate Smooth(a: Action, line: nat) {
    match a
    case Offer(_, r) => Fits(r, line)
    case WriterStep(_, io) => BatchWriter.Faultless(io)
    case DisableOutput => false
    case _ => true
  }

  ghost predicate Flawless(s: State, line: nat) {
    && !s.sh.flags.disabled && s.sh.history.dropped == [] && s.writer.pc != BoundaryFailed
    && (s.writer.pc.Starting? || s.disk.owner.boundaryWritten)
    && |BatchWriter.ActiveOf(s.disk.owner.files)| <= s.disk.limits.maxBytes
    && |s.writer.batch| <= s.sh.batchSize
    && (s.writer.pc.OtherLane? || s.writer.pc.Got? ==> |s.writer.batch| < s.sh.batchSize)
    && (forall r | r in s.sh.history.offered :: Fits(r, line))
    && s.disk.limits.rotateBytes <= s.disk.limits.maxBytes && |s.disk.boundary| <= s.disk.limits.maxBytes
    && s.sh.batchSize * line <= s.disk.limits.maxBytes
  }

  lemma {:induction false} LinesBound(rs: seq<Record>, line: nat)
    requires forall i | 0 <= i < |rs| :: |LineOf(rs[i])| <= line
    ensures |Lines(rs)| <= |rs| * line
  {
    if rs != [] {
      LinesBound(rs[..|rs| - 1], line);
      assert |rs| * line == (|rs| - 1) * line + line;
    }
  }

  lemma Product(a: nat, b: nat, line: nat)
    requires a <= b
    ensures a * line <= b * line
  {
    assert b * line == a * line + (b - a) * line;
  }

  /** What the writer holds was offered. */
  lemma BatchWasOffered(s: State, r: Record)
    requires Inv(s) && s.writer.pc.Write? && r in s.writer.batch
    ensures r in s.sh.history.offered
  {
    hide BytesInv;
    hide CountsInv;
    hide StopInv;
    var sh := s.sh;
    assert r in multiset(InHand(s.writer));
    assert r in multiset(sh.critical.taken) + multiset(sh.normal.taken);
    assert r in sh.critical.accepted || r in sh.normal.accepted;
    assert r in AcceptedOrRefused(sh);
  }

  lemma BatchFits(s: State, line: nat)
    requires Inv(s) && s.writer.pc.Write? && Flawless(s, line)
    ensures BatchWriter.Encodable(s.writer.batch) && |Lines(s.writer.batch)| <= s.disk.limits.maxBytes
  {
    hide Inv;
    hide Lines;
    var batch := s.writer.batch;
    forall i | 0 <= i < |batch| ensures Fits(batch[i], line) {
      BatchWasOffered(s, batch[i]);
    }
    LinesBound(batch, line);
    Product(|batch|, s.sh.batchSize, line);
  }

  /** The writer's own step, apart from what it commits. */
  lemma WriterSizes(sh: Shared, w: Writer, ok: bool, reported: nat)
    requires w.pc != BoundaryFailed && (w.pc.Starting? || Commits(w) ==> ok)
    requires |w.batch| <= sh.batchSize && (w.pc.OtherLane? || w.pc.Got? ==> |w.batch| < sh.batchSize)
    ensures var (sh', w') := ActWriter(sh, w, ok, reported);
            && sh'.history.dropped == sh.history.dropped && sh'.history.offered == sh.history.offered
            && sh'.flags.disabled == sh.flags.disabled && sh'.batchSize == sh.batchSize
            && w'.pc != BoundaryFailed && !w'.pc.Starting?
            && |w'.batch| <= sh'.batchSize && (w'.pc.OtherLane? || w'.pc.Got? ==> |w'.batch| < sh'.batchSize)
  {
    hide Accounted;
    hide Bytes;
  }

  lemma WriterFlawless(s: State, ok: bool, io: BatchWriter.Io, line: nat)
    requires Inv(s) && Flawless(s, line) && BatchWriter.Faultless(io)
    ensures Flawless(StepWriter(s, ok, io), line)
  {
    hide Inv;
    hide ActWriter;
    hide Lines;
    hide BatchWriter.Faultless;
    hide BatchWriter.BatchWritten;
    hide BatchWriter.BoundaryCommitted;
    hide BatchWriter.Content;
    hide BatchWriter.ActiveOf;
    hide Fits;
    var (fine, reported) := Report(s, ok, io);
    var d, o := s.disk, OwnerNow(s);
    assert o.files == d.owner.files;
    if s.writer.pc.Starting? {
      BatchWriter.FaultlessBoundary(d.limits, o, d.boundary, io);
    } else if Commits(s.writer) {
      BatchFits(s, line);
      BatchWriter.FaultlessBatch(d.limits, o, s.writer.batch, io);
    }
    WriterSizes(s.sh, s.writer, fine, reported);
  }

  lemma ProducerSizes(sh: Shared, p: Producer, fails: bool)
    ensures var sh' := ActProducer(sh, p, fails).0;
            && sh'.history.dropped == sh.history.dropped && sh'.history.offered == sh.history.offered
            && sh'.flags == sh.flags && sh'.batchSize == sh.batchSize
  {
  }

  lemma StepFlawless(s: State, a: Action, line: nat)
    requires Inv(s) && Flawless(s, line) && Smooth(a, line)
    ensures Flawless(Step(s, a), line)
  {
    hide Inv;
    hide ActProducer;
    hide StepWriter;
    hide Fits;
    hide BatchWriter.Faultless;
    hide BatchWriter.ActiveOf;
    match a
    case Produce(i, fails) => if i < |s.producers| { ProducerSizes(s.sh, s.producers[i], fails); }
    case WriterStep(ok, io) => WriterFlawless(s, ok, io, line);
    case _ =>
  }

  lemma {:induction false} RunFlawless(s: State, actions: seq<Action>, line: nat)
    requires Inv(s) && Flawless(s, line) && forall a | a in actions :: Smooth(a, line)
    ensures Flawless(Run(s, actions), line)
    decreases |actions|
  {
    hide Inv;
    hide Flawless;
    hide Step;
    hide Smooth;
    if actions != [] {
      StepFlawless(s, actions[0], line);
      StepInv(s, actions[0]);
      RunFlawless(Step(s, actions[0]), actions[1..], line);
    }
  }

  lemma InitFlawless(c: Setup, line: nat)
    requires Roomy(c, line)
    ensures Flawless(Init(c), line)
  {
  }

  /** In a session without faults no accepted record is dropped and output stays enabled. */
  lemma NothingDropped(c: Setup, actions: seq<Action>, line: nat)
    requires Roomy(c, line) && forall a | a in actions :: Smooth(a, line)
    ensures var s := Run(Init(c), actions); s.sh.history.dropped == [] && !s.sh.flags.disabled
  {
    hide Inv;
    hide Smooth;
    hide Run;
    hide Init;
    InitInv(c);
    InitFlawless(c, line);
    RunFlawless(Init(c), actions, line);
  }

  lemma {:induction false} RunConcat(s: State, a: seq<Action>, b: seq<Action>)
    ensures Run(s, a + b) == Run(Run(s, a), b)
    decreases |a|
  {
    hide Step;
    if a == [] {
      assert a + b == b;
    } else {
      assert (a + b)[1..] == a[1..] + b;
      RunConcat(Step(s, a[0]), a[1..], b);
    }
  }

  /** What a finished session without faults leaves: on disk, after what was there, the boundary and every accepted
      record once, whole and in the order of writing. */
  ghost predicate AllOnDisk(c: Setup, t: State) {
    && t.writer.pc == Exited
    && multiset(t.sh.history.written) == multiset(t.sh.critical.accepted) + multiset(t.sh.normal.accepted)
    && BatchWriter.Content(t.disk.owner.files) == InitDisk(c).prior + c.boundary + Lines(t.sh.history.written)
  }

  lemma FinishedSession(c: Setup, actions: seq<Action>, line: nat)
    requires Roomy(c, line) && (forall a | a in actions :: Smooth(a, line)) && Run(Init(c), actions).writer.pc == Exited
    ensures AllOnDisk(c, Run(Init(c), actions))
  {
    hide Smooth;
    hide Run;
    hide Init;
    hide Lines;
    hide BatchWriter.Content;
    hide BatchWriter.ActiveOf;
    hide CoreInv;
    InitInv(c);
    InitFlawless(c, line);
    RunFlawless(Init(c), actions, line);
    RunInv(Init(c), actions);
    DiskAgreesWithHealth(c, actions);
    var t := Run(Init(c), actions);
    ExitedBalance(t);
    assert multiset(t.sh.history.written) + multiset(t.sh.history.dropped) == multiset(t.sh.history.written);
    NoResidue(InitDisk(c).prior, c.boundary, Lines(t.sh.history.written));
  }

  lemma NoResidue(a: seq<Byte>, b: seq<Byte>, c: seq<Byte>)
    ensures a + b + c + [] == a + b + c
  {
  }

  /** Progress and truth together: in a session without faults, after a close the writer alone exits, and then
      everything accepted is on disk. */
  lemma EverythingReachesDisk(c: Setup, actions: seq<Action>, io: BatchWriter.Io, line: nat)
    requires Roomy(c, line) && c.batchSize >= 1 && BatchWriter.Faultless(io) &&
             forall a | a in actions :: Smooth(a, line)
    ensures exists n :: AllOnDisk(c, WriterAlone(Step(Run(Init(c), actions), Close), io, n))
  {
    hide Run;
    hide Init;
    hide AllOnDisk;
    hide Inv;
    hide OwnKind;
    var s := Run(Init(c), actions);
    var closed := Step(s, Close);
    InitInv(c);
    RunInv(Init(c), actions);
    StepInv(s, Close);
    SameBatchSize(c, actions);
    var n := Drains(closed, io);
    var more: seq<Action> := seq(n, _ => WriterStep(true, io));
    RunOne(s, Close);
    RunConcat(Init(c), actions, [Close]);
    RunConcat(Init(c), actions + [Close], more);
    assert forall a | a in actions + [Close] + more :: Smooth(a, line);
    FinishedSession(c, actions + [Close] + more, line);
    assert AllOnDisk(c, WriterAlone(closed, io, n));
  }

  lemma RunOne(s: State, a: Action)
    ensures Run(s, [a]) == Step(s, a)
  {
    hide Step;
    assert [a][1..] == [];
    assert Run(Step(s, a), []) == Step(s, a);
  }

  lemma SameBatchSize(c: Setup, actions: seq<Action>)
    ensures Run(Init(c), actions).sh.batchSize == c.batchSize
  {
    RunKind(Init(c), actions);
  }
}
