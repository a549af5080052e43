/**
 The table of running duration spans and its generations (src/python/common/performance_diagnostics.py).

 Every lock section of `begin_duration`, `finish_duration`, `reset` and the observation of the enable flag is one
 atomic step on the table; any number of threads interleave them. The flag a thread read before it takes the lock,
 and whether its clock reading was usable, are arbitrary.
 */
module SpanTable {
  import opened Options

  const MAX_ACTIVE_SPANS: nat := 32
  const MAX_NUMERIC: nat := 0x7fff_ffff_ffff_ffff

  datatype Span = Span(metric: string, generation: nat)

  /** The fields that the lock protects. */
  datatype Table = Table(
    spans: map<int, Span>, counts: map<string, int>, nextId: nat, generation: nat, enabled: Option<bool>, dropped: nat)

  // ---- lock sections ---------------------------------------------------------------------

  /** `__retire_active_locked(increment_generation=False)`. */
  function Retire(t: Table): Table { t.(spans := map[], counts := map m | m in t.counts :: 0) }

  predicate Flips(t: Table, flag: bool) { t.enabled.Some? && t.enabled.value != flag }

  /** `__observe_enabled_state`. */
  function Observe(t: Table, flag: bool): Table {
    if Flips(t, flag) then Retire(t).(generation := t.generation + 1, enabled := Some(flag))
      else t.(enabled := Some(flag))
  }

  /** `reset`. */
  function Reset(t: Table): Table { Retire(t).(generation := t.generation + 1, dropped := 0) }

  predicate Inserts(t: Table, generation: nat) {
    generation == t.generation && t.enabled == Some(true) && |t.spans| < MAX_ACTIVE_SPANS
  }

  function Wrapped(id: nat): nat { if id > MAX_NUMERIC then 1 else id }

  /** The last section of `begin_duration`. */
  function Commit(t: Table, metric: string, generation: nat): Table {
    if generation != t.generation then t
    else if t.enabled != Some(true) then Retire(t)
    else if |t.spans| >= MAX_ACTIVE_SPANS then t.(dropped := t.dropped + 1)
    else t.(spans := t.spans[t.nextId := Span(metric, generation)],
            counts := t.counts[metric := Count(t, metric) + 1],
            nextId := Wrapped(t.nextId + 1))
  }

  function Count(t: Table, metric: string): int { if metric in t.counts then t.counts[metric] else 0 }

  function AtLeastZero(x: int): nat { if x < 0 then 0 else x }

  /** The span is still the one that was looked up, of the current generation. */
  predicate Pops(t: Table, id: int, generation: nat) {
    id in t.spans && t.spans[id].generation == generation && generation == t.generation
  }

  predicate Records(t: Table, metric: string, id: int, generation: nat, enabledNow: bool, usable: bool) {
    Pops(t, id, generation) && metric == t.spans[id].metric && enabledNow && t.enabled == Some(true) && usable
  }

  /** The last section of `finish_duration`. */
  function Finish(t: Table, metric: string, id: int, generation: nat, enabledNow: bool): Table {
    var popped := t.(spans := t.spans - {id});
    if !Pops(t, id, generation) then popped
    else
      var m := t.spans[id].metric;
      var counted := popped.(counts := t.counts[m := AtLeastZero(Count(t, m) - 1)]);
      if metric != m then counted
      else if !enabledNow || t.enabled != Some(true) then Retire(counted)
      else counted
  }

  // ---- what the table always satisfies -------------------------------------------------------

  function Running(spans: map<int, Span>, metric: string): set<int> {
    set id | id in spans && spans[id].metric == metric
  }

  /** Every running span is of the current generation, each count is the number of running spans of its metric, and
      the table is bounded. */
  ghost predicate TableInv(t: Table) {
    && (forall id | id in t.spans :: t.spans[id].generation == t.generation && t.spans[id].metric in t.counts)
    && (forall m | m in t.counts :: t.counts[m] == |Running(t.spans, m)|)
    && |t.spans| <= MAX_ACTIVE_SPANS
  }

  lemma RunningAdd(spans: map<int, Span>, id: int, span: Span, metric: string)
    requires id !in spans
    ensures |Running(spans[id := span], metric)| == |Running(spans, metric)| + if span.metric == metric then 1 else 0
    ensures |spans[id := span]| == |spans| + 1
  {
    assert Running(spans[id := span], metric) == Running(spans, metric) + if span.metric == metric then {id} else {};
  }

  lemma RunningRemove(spans: map<int, Span>, id: int, metric: string)
    requires id in spans
    ensures |Running(spans - {id}, metric)| == |Running(spans, metric)| - if spans[id].metric == metric then 1 else 0
    ensures |spans - {id}| == |spans| - 1
  {
    assert spans == (spans - {id})[id := spans[id]];
    RunningAdd(spans - {id}, id, spans[id], metric);
  }

  lemma RetireInv(t: Table, u: Table)
    requires u.spans == map[] && u.counts == Retire(t).counts
    ensures TableInv(u)
  {
    forall m | m in u.counts ensures u.counts[m] == |Running(u.spans, m)| {
      assert Running(u.spans, m) == {};
    }
  }

  lemma CommitInv(t: Table, metric: string, generation: nat)
    requires TableInv(t) && metric in t.counts && t.nextId !in t.spans
    ensures TableInv(Commit(t, metric, generation)) && Commit(t, metric, generation).counts.Keys == t.counts.Keys
  {
    hide Running;
    var u := Commit(t, metric, generation);
    if Inserts(t, generation) {
      forall m | m in u.counts ensures u.counts[m] == |Running(u.spans, m)| {
        RunningAdd(t.spans, t.nextId, Span(metric, generation), m);
      }
      RunningAdd(t.spans, t.nextId, Span(metric, generation), metric);
    } else if generation == t.generation && t.enabled != Some(true) {
      RetireInv(t, u);
    }
  }

  /** With the generation that the look-up saw, popping keeps the counts exact, and the clamp at zero never fires. */
  lemma FinishInv(t: Table, metric: string, id: int, generation: nat, enabledNow: bool)
    requires TableInv(t) && (id in t.spans ==> generation == t.spans[id].generation)
    ensures TableInv(Finish(t, metric, id, generation, enabledNow))
    ensures Finish(t, metric, id, generation, enabledNow).counts.Keys == t.counts.Keys
    ensures id in t.spans ==> t.counts[t.spans[id].metric] > 0
  {
    hide Running;
    var u := Finish(t, metric, id, generation, enabledNow);
    if id !in t.spans {
      assert u.spans == t.spans;
    } else {
      var m0 := t.spans[id].metric;
      RunningRemove(t.spans, id, m0);
      if metric == m0 && (!enabledNow || t.enabled != Some(true)) {
        RetireInv(t, u);
      } else {
        PoppedInv(t, id, u);
      }
    }
  }

  lemma PoppedInv(t: Table, id: int, u: Table)
    requires TableInv(t) && id in t.spans
    requires var m := t.spans[id].metric;
             u.spans == t.spans - {id} && u.counts == t.counts[m := t.counts[m] - 1] && u.generation == t.generation
    ensures TableInv(u)
  {
    hide Running;
    forall m | m in u.counts ensures u.counts[m] == |Running(u.spans, m)| {
      RunningRemove(t.spans, id, m);
    }
    RunningRemove(t.spans, id, "");
  }

  // ---- the collector's own object -----------------------------------------------------------

  class Collector {
    var activeSpans: map<int, Span>
    var activeCounts: map<string, int>
    var nextSpanId: nat
    var activeGeneration: nat
    var enabledState: Option<bool>
    var spansDropped: nat

    ghost function Now(): Table
      reads this
    {
      Table(activeSpans, activeCounts, nextSpanId, activeGeneration, enabledState, spansDropped)
    }

    constructor (metrics: set<string>)
      ensures Now() == Table(map[], map m | m in metrics :: 0, 1, 0, None, 0) && TableInv(Now())
    {
      activeSpans, activeCounts := map[], map m | m in metrics :: 0;
      nextSpanId, activeGeneration, enabledState, spansDropped := 1, 0, None, 0;
      new;
      RetireInv(Now(), Now());
    }

    method RetireActive(increment: bool)
      modifies this`activeSpans, this`activeCounts, this`activeGeneration
      ensures Now() == if increment then Retire(old(Now())).(generation := old(activeGeneration) + 1)
              else Retire(old(Now()))
    {
      activeSpans := map[];
      var todo := activeCounts.Keys;
      while todo != {}
        invariant todo <= activeCounts.Keys == old(activeCounts).Keys
        invariant forall m | m in activeCounts :: activeCounts[m] == if m in todo then old(activeCounts)[m] else 0
        invariant activeSpans == map[] && activeGeneration == old(activeGeneration)
      {
        var m :| m in todo;
        activeCounts := activeCounts[m := 0];
        todo := todo - {m};
      }
      assert activeCounts == Retire(old(Now())).counts;
      if increment {
        activeGeneration := activeGeneration + 1;
      }
    }

    method ObserveEnabled(flag: bool)
      modifies this
      ensures Now() == Observe(old(Now()), flag)
    {
      var previous := enabledState;
      enabledState := Some(flag);
      if previous.Some? && previous.value != flag {
        activeGeneration := activeGeneration + 1;
        RetireActive(false);
      }
    }

    method CommitBegin(metric: string, generation: nat) returns (token: Option<int>)
      requires metric in activeCounts
      modifies this
      ensures Now() == Commit(old(Now()), metric, generation)
      ensures token == if Inserts(old(Now()), generation) then Some(old(nextSpanId)) else None
    {
      token := None;
      if generation != activeGeneration {
        return;
      }
      if enabledState != Some(true) {
        RetireActive(false);
        return;
      }
      if |activeSpans| >= MAX_ACTIVE_SPANS {
        spansDropped := spansDropped + 1;
        return;
      }
      var id := nextSpanId;
      nextSpanId := nextSpanId + 1;
      if nextSpanId > MAX_NUMERIC {
        nextSpanId := 1;
      }
      activeSpans := activeSpans[id := Span(metric, generation)];
      activeCounts := activeCounts[metric := activeCounts[metric] + 1];
      token := Some(id);
    }

    method CommitFinish(metric: string, id: int, generation: nat, enabledNow: bool, usable: bool)
      returns (recorded: bool)
      requires forall k | k in activeSpans :: activeSpans[k].metric in activeCounts
      modifies this
      ensures Now() == Finish(old(Now()), metric, id, generation, enabledNow)
      ensures recorded == Records(old(Now()), metric, id, generation, enabledNow, usable)
    {
      var active := if id in activeSpans then Some(activeSpans[id]) else None;
      activeSpans := activeSpans - {id};
      if active == None || active.value.generation != generation || generation != activeGeneration {
        return false;
      }
      var m := active.value.metric;
      activeCounts := activeCounts[m := AtLeastZero(activeCounts[m] - 1)];
      if metric != m {
        return false;
      }
      if !enabledNow || enabledState != Some(true) {
        RetireActive(false);
        return false;
      }
      recorded := usable && enabledNow;
    }

    method ResetAll()
      modifies this
      ensures Now() == Reset(old(Now()))
    {
      spansDropped := 0;
      activeSpans := map[];
      activeCounts := map m | m in activeCounts :: 0;
      activeGeneration := activeGeneration + 1;
    }
  }

  // ---- threads interleaving the sections ---------------------------------------------------------

  /** What a thread carries between its lock sections. */
  datatype Pc =
    | Idle
    | Seen(metric: string)
    | Holding(metric: string, generation: nat)
    | Clearing(metric: string, id: int)
    | Looking(metric: string, id: int)
    | Found(metric: string, id: int, generation: nat)
    | Ready(metric: string, id: int, generation: nat, enabledNow: bool)

  /** Every span ever inserted, how many there were, and the ids whose duration was recorded, in order. */
  datatype History = History(issued: map<int, Span>, begun: nat, log: seq<int>)

  datatype System = System(table: Table, threads: map<nat, Pc>, history: History)

  datatype Action =
    | SomeoneObserves(flag: bool)
    | SomeoneResets
    | BeginObserve(thread: nat, metric: string, flag: bool)
    | Capture(thread: nat)
    | Insert(thread: nat)
    | FinishObserve(thread: nat, metric: string, id: int, flag: bool)
    | ClearDisabled(thread: nat)
    | LookUp(thread: nat)
    | ObserveAgain(thread: nat, flag: bool)
    | Pop(thread: nat, usable: bool)
    | Abandon(thread: nat)

  function At(s: System, thread: nat): Pc { if thread in s.threads then s.threads[thread] else Idle }

  function Moved(s: System, thread: nat, pc: Pc, table: Table): System {
    s.(threads := s.threads[thread := pc], table := table)
  }

  function InsertStep(s: System, thread: nat, metric: string, generation: nat): System {
    var u := Moved(s, thread, Idle, Commit(s.table, metric, generation));
    if Inserts(s.table, generation) then
      u.(history := s.history.(issued := s.history.issued[s.table.nextId := Span(metric, generation)],
                               begun := s.history.begun + 1))
    else u
  }

  function LookUpStep(s: System, thread: nat, metric: string, id: int): System {
    Moved(s, thread, if id in s.table.spans then Found(metric, id, s.table.spans[id].generation) else Idle, s.table)
  }

  function PopStep(s: System, thread: nat, pc: Pc, usable: bool): System
    requires pc.Ready?
  {
    var u := Moved(s, thread, Idle, Finish(s.table, pc.metric, pc.id, pc.generation, pc.enabledNow));
    if Records(s.table, pc.metric, pc.id, pc.generation, pc.enabledNow, usable) then
      u.(history := s.history.(log := s.history.log + [pc.id]))
    else u
  }

  /** One lock section of one thread; a section whose thread is elsewhere does nothing. */
  function Step(s: System, a: Action): System {
    match a
    case SomeoneObserves(flag) => s.(table := Observe(s.table, flag))
    case SomeoneResets => s.(table := Reset(s.table))
    case BeginObserve(t, metric, flag) =>
      if At(s, t) != Idle then s
      else Moved(s, t, if flag && metric in s.table.counts then Seen(metric) else Idle, Observe(s.table, flag))
    case Capture(t) => if At(s, t).Seen? then Moved(s, t, Holding(At(s, t).metric, s.table.generation), s.table) else s
    case Insert(t) => if At(s, t).Holding? then InsertStep(s, t, At(s, t).metric, At(s, t).generation) else s
    case FinishObserve(t, metric, id, flag) =>
      if At(s, t) != Idle then s
      else Moved(s, t, if flag then Looking(metric, id) else Clearing(metric, id), Observe(s.table, flag))
    case ClearDisabled(t) =>
      if At(s, t).Clearing? then Moved(s, t, Looking(At(s, t).metric, At(s, t).id), Retire(s.table)) else s
    case LookUp(t) => if At(s, t).Looking? then LookUpStep(s, t, At(s, t).metric, At(s, t).id) else s
    case ObserveAgain(t, flag) =>
      if At(s, t).Found? then
        Moved(s, t, Ready(At(s, t).metric, At(s, t).id, At(s, t).generation, flag), Observe(s.table, flag))
      else s
    case Pop(t, usable) => if At(s, t).Ready? then PopStep(s, t, At(s, t), usable) else s
    case Abandon(t) => Moved(s, t, Idle, s.table)
  }

  function Init(metrics: set<string>): System {
    System(Table(map[], map m | m in metrics :: 0, 1, 0, None, 0), map[], History(map[], 0, []))
  }

  // ---- the invariant of every interleaving --------------------------------------------------------

  /** Ids are handed out once each, in order, as long as they do not wrap. */
  ghost predicate IdsInv(t: Table, h: History) {
    && t.nextId == Wrapped(h.begun + 1)
    && (forall id | id in h.issued :: 1 <= id <= h.begun && h.issued[id].generation <= t.generation)
    && (forall id | id in t.spans :: id in h.issued && h.issued[id] == t.spans[id])
  }

  ghost predicate LogInv(t: Table, h: History) {
    && (forall i | 0 <= i < |h.log| :: h.log[i] in h.issued && h.log[i] !in t.spans)
    && (forall i, j | 0 <= i < j < |h.log| :: h.log[i] != h.log[j])
  }

  ghost predicate PcInv(t: Table, h: History, pc: Pc) {
    && (pc.Seen? || pc.Holding? ==> pc.metric in t.counts)
    && (pc.Found? || pc.Ready? ==> pc.id in h.issued && h.issued[pc.id].generation == pc.generation)
  }

  ghost predicate Inv(s: System) {
    && TableInv(s.table) && IdsInv(s.table, s.history) && LogInv(s.table, s.history)
    && (forall t | t in s.threads :: PcInv(s.table, s.history, s.threads[t]))
  }

  /** The table moved on, the history only grew, and one thread changed place. */
  lemma MovedInv(s: System, thread: nat, pc: Pc, u: System)
    requires Inv(s) && TableInv(u.table) && IdsInv(u.table, u.history) && LogInv(u.table, u.history)
    requires u.threads == s.threads[thread := pc] && PcInv(u.table, u.history, pc)
    requires u.table.counts.Keys == s.table.counts.Keys
    requires forall id | id in s.history.issued ::
               id in u.history.issued && u.history.issued[id] == s.history.issued[id]
    ensures Inv(u)
  {
    hide TableInv;
    hide IdsInv;
    hide LogInv;
  }

  /** Clearing the table, and moving to a later generation, keep it all. */
  lemma ClearedInv(t: Table, h: History, u: Table)
    requires IdsInv(t, h) && LogInv(t, h) && u.nextId == t.nextId && u.generation >= t.generation && u.spans == map[]
    ensures IdsInv(u, h) && LogInv(u, h)
  {
  }

  lemma ObserveInv(t: Table, h: History, flag: bool)
    requires TableInv(t) && IdsInv(t, h) && LogInv(t, h)
    ensures var u := Observe(t, flag);
            TableInv(u) && IdsInv(u, h) && LogInv(u, h) && u.counts.Keys == t.counts.Keys
  {
    var u := Observe(t, flag);
    if Flips(t, flag) {
      RetireInv(t, u);
      ClearedInv(t, h, u);
    }
  }

  lemma ObserveMoves(s: System, thread: nat, pc: Pc, flag: bool)
    requires Inv(s) && PcInv(s.table, s.history, pc)
    ensures Inv(Moved(s, thread, pc, Observe(s.table, flag))) &&
            Observe(s.table, flag).counts.Keys == s.table.counts.Keys
  {
    ObserveInv(s.table, s.history, flag);
    MovedInv(s, thread, pc, Moved(s, thread, pc, Observe(s.table, flag)));
  }

  lemma InsertInv(s: System, thread: nat)
    requires Inv(s) && At(s, thread).Holding?
    requires InsertStep(s, thread, At(s, thread).metric, At(s, thread).generation).history.begun <= MAX_NUMERIC
    ensures Inv(InsertStep(s, thread, At(s, thread).metric, At(s, thread).generation))
    ensures InsertStep(s, thread, At(s, thread).metric, At(s, thread).generation).table.counts.Keys ==
            s.table.counts.Keys
  {
    var pc := At(s, thread);
    var t, u := s.table, InsertStep(s, thread, pc.metric, pc.generation);
    if Inserts(t, pc.generation) {
      CommitInv(t, pc.metric, pc.generation);
      InsertHistory(t, s.history, pc.metric, pc.generation);
    } else if pc.generation == t.generation && t.enabled != Some(true) {
      RetireInv(t, u.table);
      ClearedInv(t, s.history, u.table);
    }
    MovedInv(s, thread, Idle, u);
  }

  lemma InsertHistory(t: Table, h: History, metric: string, generation: nat)
    requires IdsInv(t, h) && LogInv(t, h) && Inserts(t, generation) && h.begun < MAX_NUMERIC
    ensures var u := Commit(t, metric, generation);
            var h' := h.(issued := h.issued[t.nextId := Span(metric, generation)], begun := h.begun + 1);
            IdsInv(u, h') && LogInv(u, h')
  {
  }

  lemma PopInv(s: System, thread: nat, usable: bool)
    requires Inv(s) && At(s, thread).Ready?
    ensures Inv(PopStep(s, thread, At(s, thread), usable))
    ensures PopStep(s, thread, At(s, thread), usable).table.counts.Keys == s.table.counts.Keys
  {
    hide TableInv;
    hide IdsInv;
    hide LogInv;
    hide Finish;
    hide Records;
    var pc := At(s, thread);
    assert PcInv(s.table, s.history, pc);
    var t, u := s.table, PopStep(s, thread, pc, usable);
    FoundGeneration(t, s.history, pc);
    FinishInv(t, pc.metric, pc.id, pc.generation, pc.enabledNow);
    FinishHistory(t, s.history, pc, usable);
    MovedInv(s, thread, Idle, u);
  }

  /** Ids are not reused, so a span that is still there is the one that was looked up. */
  lemma FoundGeneration(t: Table, h: History, pc: Pc)
    requires IdsInv(t, h) && pc.Ready? && PcInv(t, h, pc)
    ensures pc.id in t.spans ==> pc.generation == t.spans[pc.id].generation
  {
  }

  lemma FinishHistory(t: Table, h: History, pc: Pc, usable: bool)
    requires IdsInv(t, h) && LogInv(t, h) && pc.Ready? && PcInv(t, h, pc)
    ensures var u := Finish(t, pc.metric, pc.id, pc.generation, pc.enabledNow);
            var h' := if Records(t, pc.metric, pc.id, pc.generation, pc.enabledNow, usable)
              then h.(log := h.log + [pc.id]) else h;
            IdsInv(u, h') && LogInv(u, h')
  {
    var u := Finish(t, pc.metric, pc.id, pc.generation, pc.enabledNow);
    assert u.nextId == t.nextId && u.generation == t.generation;
    assert forall id | id in u.spans :: id in t.spans && id != pc.id && u.spans[id] == t.spans[id];
  }

  lemma StepInv(s: System, a: Action)
    requires Inv(s) && Step(s, a).history.begun <= MAX_NUMERIC
    ensures Inv(Step(s, a)) && Step(s, a).table.counts.Keys == s.table.counts.Keys
  {
    hide TableInv;
    hide IdsInv;
    hide LogInv;
    hide InsertStep;
    hide LookUpStep;
    hide PopStep;
    var u := Step(s, a);
    match a
    case SomeoneObserves(flag) => ObserveInv(s.table, s.history, flag);
    case SomeoneResets =>
      RetireInv(s.table, u.table);
      ClearedInv(s.table, s.history, u.table);
    case BeginObserve(t, metric, flag) =>
      if At(s, t) == Idle {
        ObserveMoves(s, t, u.threads[t], flag);
      }
    case Capture(t) =>
      if At(s, t).Seen? {
        MovedInv(s, t, u.threads[t], u);
      }
    case Insert(t) =>
      if At(s, t).Holding? {
        InsertInv(s, t);
      }
    case FinishObserve(t, metric, id, flag) =>
      if At(s, t) == Idle {
        ObserveMoves(s, t, u.threads[t], flag);
      }
    case ClearDisabled(t) =>
      if At(s, t).Clearing? {
        RetireInv(s.table, u.table);
        ClearedInv(s.table, s.history, u.table);
        MovedInv(s, t, u.threads[t], u);
      }
    case LookUp(t) =>
      if At(s, t).Looking? {
        LookUpInv(s, t);
      }
    case ObserveAgain(t, flag) =>
      if At(s, t).Found? {
        ObserveMoves(s, t, u.threads[t], flag);
      }
    case Pop(t, usable) =>
      if At(s, t).Ready? {
        PopInv(s, t, usable);
      }
    case Abandon(t) => MovedInv(s, t, Idle, u);
  }

  lemma LookUpInv(s: System, t: nat)
    requires Inv(s) && At(s, t).Looking?
    ensures Inv(LookUpStep(s, t, At(s, t).metric, At(s, t).id))
    ensures LookUpStep(s, t, At(s, t).metric, At(s, t).id).table == s.table
  {
    var u := LookUpStep(s, t, At(s, t).metric, At(s, t).id);
    MovedInv(s, t, u.threads[t], u);
  }

  // ---- every run ------------------------------------------------------------------------------------

  ghost predicate Run(metrics: set<string>, states: seq<System>, actions: seq<Action>) {
    && |states| == |actions| + 1 && states[0] == Init(metrics)
    && (forall i | 0 <= i < |actions| :: states[i + 1] == Step(states[i], actions[i]))
  }

  lemma BegunGrows(s: System, a: Action)
    ensures s.history.begun <= Step(s, a).history.begun && s.table.generation <= Step(s, a).table.generation
    ensures Invalidates(s, a) ==> s.table.generation < Step(s, a).table.generation
  {
  }

  /** A reset and a change of the enable state that was observed before both start a generation. */
  lemma OnlyFlipsChange(s: System, a: Action)
    ensures a == SomeoneResets || (s.table.enabled.Some? && Step(s, a).table.enabled != s.table.enabled) ==>
              s.table.generation < Step(s, a).table.generation
  {
  }

  lemma {:induction false} Grows(metrics: set<string>, states: seq<System>, actions: seq<Action>, i: nat, k: nat)
    requires Run(metrics, states, actions) && i <= k < |states|
    ensures states[i].history.begun <= states[k].history.begun &&
            states[i].table.generation <= states[k].table.generation
    decreases k - i
  {
    hide Step;
    if i < k {
      assert states[i + 1] == Step(states[i], actions[i]);
      BegunGrows(states[i], actions[i]);
      Grows(metrics, states, actions, i + 1, k);
    }
  }

  lemma {:induction false} RunInv(metrics: set<string>, states: seq<System>, actions: seq<Action>, k: nat)
    requires Run(metrics, states, actions) && k < |states| && states[k].history.begun <= MAX_NUMERIC
    ensures Inv(states[k]) && states[k].table.counts.Keys == metrics
  {
    hide Step;
    hide Inv;
    if k == 0 {
      InitInv(metrics);
    } else {
      assert states[k - 1 + 1] == Step(states[k - 1], actions[k - 1]);
      Grows(metrics, states, actions, k - 1, k);
      RunInv(metrics, states, actions, k - 1);
      StepInv(states[k - 1], actions[k - 1]);
    }
  }

  lemma InitInv(metrics: set<string>)
    ensures Inv(Init(metrics))
  {
    RetireInv(Init(metrics).table, Init(metrics).table);
  }

  /** Under 2^63 spans, at every moment of every interleaving: the running spans are all of the current generation,
      each active count is the number of running spans of its metric, and at most 32 spans run. */
  lemma CountsAreExact(metrics: set<string>, states: seq<System>, actions: seq<Action>, k: nat)
    requires Run(metrics, states, actions) && k < |states| && states[k].history.begun <= MAX_NUMERIC
    ensures var t := states[k].table;
            && (forall id | id in t.spans :: t.spans[id].generation == t.generation)
            && t.counts.Keys == metrics
            && (forall m | m in metrics :: t.counts[m] == |Running(t.spans, m)|)
            && |t.spans| <= 32
  {
    RunInv(metrics, states, actions, k);
  }

  /** Spans run only while the last observation found diagnostics enabled, so a finish that finds them disabled has
      nothing left to clear. */
  lemma {:induction false} NoSpanWhileDisabled(metrics: set<string>, states: seq<System>, actions: seq<Action>, k: nat)
    requires Run(metrics, states, actions) && k < |states|
    ensures states[k].table.spans != map[] ==> states[k].table.enabled == Some(true)
  {
    if k > 0 {
      NoSpanWhileDisabled(metrics, states, actions, k - 1);
      assert states[k - 1 + 1] == Step(states[k - 1], actions[k - 1]);
      StepEnabled(states[k - 1], actions[k - 1]);
    }
  }

  lemma StepEnabled(s: System, a: Action)
    requires s.table.spans != map[] ==> s.table.enabled == Some(true)
    ensures Step(s, a).table.spans != map[] ==> Step(s, a).table.enabled == Some(true)
  {
  }

  /** Under 2^63 spans, no span is recorded twice, whoever finishes it and however often. */
  lemma RecordedAtMostOnce(metrics: set<string>, states: seq<System>, actions: seq<Action>, k: nat)
    requires Run(metrics, states, actions) && k < |states| && states[k].history.begun <= MAX_NUMERIC
    ensures var log := states[k].history.log;
            forall i, j | 0 <= i < j < |log| :: log[i] != log[j]
  {
    RunInv(metrics, states, actions, k);
  }

  /** A reset, or an observation that flips the enable state. */
  predicate Invalidates(s: System, a: Action) {
    match a
    case SomeoneResets => true
    case SomeoneObserves(flag) => Flips(s.table, flag)
    case BeginObserve(t, _, flag) => At(s, t) == Idle && Flips(s.table, flag)
    case FinishObserve(t, _, _, flag) => At(s, t) == Idle && Flips(s.table, flag)
    case ObserveAgain(t, flag) => At(s, t).Found? && Flips(s.table, flag)
    case _ => false
  }

  predicate InsertsSpan(s: System, a: Action, id: int) {
    a.Insert? && At(s, a.thread).Holding? && Inserts(s.table, At(s, a.thread).generation) && id == s.table.nextId
  }

  predicate RecordsSpan(s: System, a: Action, id: int) {
    a.Pop? && At(s, a.thread).Ready? && At(s, a.thread).id == id &&
    var pc := At(s, a.thread);
    Records(s.table, pc.metric, pc.id, pc.generation, pc.enabledNow, a.usable)
  }

  lemma {:induction false} IssuedStays(metrics: set<string>, states: seq<System>, actions: seq<Action>, j: nat, k: nat,
                                       id: int)
    requires Run(metrics, states, actions) && j <= k < |states| && states[k].history.begun <= MAX_NUMERIC
    requires id in states[j].history.issued
    ensures id in states[k].history.issued && states[k].history.issued[id] == states[j].history.issued[id]
    decreases k - j
  {
    if j < k {
      assert states[j + 1] == Step(states[j], actions[j]);
      Grows(metrics, states, actions, j, k);
      Grows(metrics, states, actions, j + 1, k);
      RunInv(metrics, states, actions, j);
      IssuedOnce(states[j], actions[j], id);
      IssuedStays(metrics, states, actions, j + 1, k, id);
    }
  }

  lemma IssuedOnce(s: System, a: Action, id: int)
    requires Inv(s) && Step(s, a).history.begun <= MAX_NUMERIC && id in s.history.issued
    ensures id in Step(s, a).history.issued && Step(s, a).history.issued[id] == s.history.issued[id]
  {
  }

  /** A span whose begin captured its generation at step i, was inserted at step j and recorded at step k saw no reset
      and no flip in between: whatever invalidates a begun span, its duration is never recorded afterwards. */
  lemma NeverRecordedAfterReset(metrics: set<string>, states: seq<System>, actions: seq<Action>, i: nat, j: nat, k: nat,
                                thread: nat, id: int, r: nat)
    requires Run(metrics, states, actions) && states[|actions|].history.begun <= MAX_NUMERIC
    requires i < j < k < |actions| && i <= r < k
    requires actions[i] == Capture(thread) && At(states[i], thread).Seen?
    requires actions[j] == Insert(thread) && At(states[j], thread) == At(states[i + 1], thread)
    requires InsertsSpan(states[j], actions[j], id) && RecordsSpan(states[k], actions[k], id)
    ensures !Invalidates(states[r], actions[r]) && actions[r] != SomeoneResets
    ensures states[r].table.enabled.Some? ==> states[r + 1].table.enabled == states[r].table.enabled
  {
    assert states[i + 1] == Step(states[i], actions[i]);
    assert states[j + 1] == Step(states[j], actions[j]);
    var g := states[i].table.generation;
    assert At(states[j], thread).generation == g && states[j + 1].history.issued[id].generation == g;
    Grows(metrics, states, actions, k, |actions|);
    IssuedStays(metrics, states, actions, j + 1, k, id);
    RunInv(metrics, states, actions, k);
    assert states[k].table.generation == g;
    assert states[r + 1] == Step(states[r], actions[r]);
    BegunGrows(states[r], actions[r]);
    OnlyFlipsChange(states[r], actions[r]);
    Grows(metrics, states, actions, i, r);
    Grows(metrics, states, actions, r + 1, k);
  }

  // ---- a span that nobody disturbs -------------------------------------------------------------------

  function After(s: System, actions: seq<Action>): System
    decreases |actions|
  {
    if actions == [] then s else After(Step(s, actions[0]), actions[1..])
  }

  /** The table a begin starts from once it has seen diagnostics enabled: after a disabled time, an empty one of the
      next generation. */
  predicate Fresh(t: Table, u: Table) {
    if t.enabled == Some(false) then
      && u.spans == map[] && u.counts.Keys == t.counts.Keys && (forall m | m in u.counts :: u.counts[m] == 0)
      && u.generation == t.generation + 1 && u.nextId == t.nextId && u.enabled == Some(true) && u.dropped == t.dropped
    else u == t.(enabled := Some(true))
  }

  lemma ObservedIsFresh(t: Table)
    ensures Fresh(t, Observe(t, true))
  {
  }

  /** A begin: with fewer than 32 spans running, a span of the metric and the current generation is in the table under
      the next id and counted; otherwise the drop is counted, and nothing else. */
  ghost predicate Began(t: Table, b: Table, metric: string) {
    exists u :: Fresh(t, u) && metric in u.counts &&
      if |u.spans| < 32 then
        b == u.(spans := u.spans[u.nextId := Span(metric, u.generation)],
                counts := u.counts[metric := u.counts[metric] + 1],
                nextId := if u.nextId == 0x7fff_ffff_ffff_ffff then 1 else u.nextId + 1)
      else b == u.(dropped := u.dropped + 1)
  }

  lemma BeginSteps(s: System, thread: nat, metric: string)
    requires At(s, thread) == Idle && metric in s.table.counts && s.table.nextId <= MAX_NUMERIC
    ensures var b := After(s, [BeginObserve(thread, metric, true), Capture(thread), Insert(thread)]);
            && Began(s.table, b.table, metric) && At(b, thread) == Idle && b.history.log == s.history.log
            && b.history.issued.Keys <= s.history.issued.Keys + {s.table.nextId}
  {
    hide Step;
    hide After;
    hide Commit;
    hide Observe;
    hide Began;
    var a0, a1, a2 := BeginObserve(thread, metric, true), Capture(thread), Insert(thread);
    ThreeSteps(s, a0, a1, a2);
    BeginParts(s, thread, metric);
    CommitBegan(s.table, metric);
  }

  lemma CommitBegan(t: Table, metric: string)
    requires metric in t.counts && t.nextId <= MAX_NUMERIC
    ensures var u := Observe(t, true); Began(t, Commit(u, metric, u.generation), metric)
  {
    var u := Observe(t, true);
    ObservedIsFresh(t);
    assert metric in u.counts;
  }

  lemma BeganEnabled(t: Table, b: Table, metric: string)
    requires Began(t, b, metric) && t.enabled == Some(true) && |t.spans| < 32 && t.nextId < MAX_NUMERIC
    ensures metric in t.counts
    ensures b == t.(spans := t.spans[t.nextId := Span(metric, t.generation)],
                    counts := t.counts[metric := t.counts[metric] + 1], nextId := t.nextId + 1)
  {
  }

  lemma ThreeSteps(s: System, a: Action, b: Action, c: Action)
    ensures After(s, [a, b, c]) == Step(Step(Step(s, a), b), c)
  {
    hide Step;
    assert [a, b, c][1..] == [b, c] && [b, c][1..] == [c] && [c][1..] == [];
    assert After(Step(s, a), [b, c]) == After(Step(Step(s, a), b), [c]);
    assert After(Step(Step(s, a), b), [c]) == After(Step(Step(Step(s, a), b), c), []);
  }

  lemma BeginParts(s: System, thread: nat, metric: string)
    requires At(s, thread) == Idle && metric in s.table.counts && s.table.nextId <= MAX_NUMERIC
    ensures var s1 := Step(s, BeginObserve(thread, metric, true));
            var s3 := Step(Step(s1, Capture(thread)), Insert(thread));
            var u := Observe(s.table, true);
            && s3.table == Commit(u, metric, u.generation) && At(s3, thread) == Idle && metric in u.counts
            && u.enabled == Some(true) && s3.history.log == s.history.log
            && s3.history.issued.Keys <= s.history.issued.Keys + {s.table.nextId}
  {
    hide Commit;
  }

  /** A finish of a running span with its metric: its duration is recorded and it leaves table and count. */
  lemma FinishSteps(s: System, thread: nat, id: int)
    requires Inv(s) && At(s, thread) == Idle && id in s.table.spans && s.table.enabled == Some(true)
    ensures var metric := s.table.spans[id].metric;
            var f := After(s, [FinishObserve(thread, metric, id, true), LookUp(thread), ObserveAgain(thread, true),
                               Pop(thread, true)]);
            && f.history.log == s.history.log + [id] && f.history.issued == s.history.issued && At(f, thread) == Idle
            && f.table == s.table.(spans := s.table.spans - {id},
                                   counts := s.table.counts[metric := s.table.counts[metric] - 1])
  {
    hide Step;
    var metric := s.table.spans[id].metric;
    var a0, a1, a2, a3 := FinishObserve(thread, metric, id, true), LookUp(thread), ObserveAgain(thread, true),
      Pop(thread, true);
    FourSteps(s, a0, a1, a2, a3);
    FinishParts(s, thread, id);
    FinishInv(s.table, metric, id, s.table.generation, true);
  }

  lemma FourSteps(s: System, a: Action, b: Action, c: Action, d: Action)
    ensures After(s, [a, b, c, d]) == Step(Step(Step(Step(s, a), b), c), d)
  {
    hide Step;
    assert [a, b, c, d][1..] == [b, c, d];
    ThreeSteps(Step(s, a), b, c, d);
  }

  lemma FinishParts(s: System, thread: nat, id: int)
    requires TableInv(s.table) && At(s, thread) == Idle && id in s.table.spans && s.table.enabled == Some(true)
    ensures var metric, g := s.table.spans[id].metric, s.table.generation;
            var s2 := Step(Step(s, FinishObserve(thread, metric, id, true)), LookUp(thread));
            var s4 := Step(Step(s2, ObserveAgain(thread, true)), Pop(thread, true));
            && s4.table == Finish(s.table, metric, id, g, true) && At(s4, thread) == Idle
            && s4.history == s.history.(log := s.history.log + [id])
  {
    hide Finish;
    hide Running;
    var metric, g := s.table.spans[id].metric, s.table.generation;
    var s1 := Step(s, FinishObserve(thread, metric, id, true));
    assert s1 == Moved(s, thread, Looking(metric, id), s.table);
    var s2 := Step(s1, LookUp(thread));
    assert s2 == Moved(s, thread, Found(metric, id, g), s.table);
    var s3 := Step(s2, ObserveAgain(thread, true));
    assert s3 == Moved(s, thread, Ready(metric, id, g, true), s.table);
  }

  /** Progress: a begin and a finish that nobody disturbs, with diagnostics enabled and fewer than 32 spans running,
      record exactly this span, and leave no span and no count behind. */
  lemma UndisturbedSpan(s: System, thread: nat, metric: string)
    requires Inv(s) && At(s, thread) == Idle && metric in s.table.counts && s.table.enabled == Some(true)
    requires |s.table.spans| < 32 && s.history.begun < MAX_NUMERIC - 1
    ensures var id := s.table.nextId;
            var b := After(s, [BeginObserve(thread, metric, true), Capture(thread), Insert(thread)]);
            var f := After(b, [FinishObserve(thread, metric, id, true), LookUp(thread), ObserveAgain(thread, true),
                               Pop(thread, true)]);
            && id in b.table.spans && b.table.counts == s.table.counts[metric := s.table.counts[metric] + 1]
            && f.history.log == s.history.log + [id]
            && f.table.spans == s.table.spans && f.table.counts == s.table.counts
  {
    hide Step;
    hide After;
    hide Inv;
    var id := s.table.nextId;
    var b := After(s, [BeginObserve(thread, metric, true), Capture(thread), Insert(thread)]);
    UndisturbedBegin(s, thread, metric);
    UnusedId(s);
    FinishSteps(b, thread, id);
    BackAgain(s.table, id, metric);
  }

  lemma UndisturbedBegin(s: System, thread: nat, metric: string)
    requires Inv(s) && At(s, thread) == Idle && metric in s.table.counts && s.table.enabled == Some(true)
    requires |s.table.spans| < 32 && s.history.begun < MAX_NUMERIC - 1
    ensures var b := After(s, [BeginObserve(thread, metric, true), Capture(thread), Insert(thread)]);
            && Inv(b) && At(b, thread) == Idle && b.history.log == s.history.log
            && b.table == s.table.(spans := s.table.spans[s.table.nextId := Span(metric, s.table.generation)],
                                   counts := s.table.counts[metric := s.table.counts[metric] + 1],
                                   nextId := s.table.nextId + 1)
  {
    hide Step;
    hide After;
    hide Began;
    hide Inv;
    UnusedId(s);
    BeginSteps(s, thread, metric);
    BeginInv(s, thread, metric);
    BeganEnabled(s.table, After(s, [BeginObserve(thread, metric, true), Capture(thread), Insert(thread)]).table,
                 metric);
  }

  lemma BackAgain(t: Table, id: int, metric: string)
    requires id !in t.spans && metric in t.counts
    ensures t.spans[id := Span(metric, t.generation)] - {id} == t.spans
    ensures var more := t.counts[metric := t.counts[metric] + 1]; more[metric := more[metric] - 1] == t.counts
  {
  }

  lemma UnusedId(s: System)
    requires Inv(s) && s.history.begun < MAX_NUMERIC
    ensures s.table.nextId !in s.table.spans && s.table.nextId == s.history.begun + 1
  {
  }

  lemma BeginInv(s: System, thread: nat, metric: string)
    requires Inv(s) && s.history.begun < MAX_NUMERIC
    ensures Inv(After(s, [BeginObserve(thread, metric, true), Capture(thread), Insert(thread)]))
  {
    hide Inv;
    var a0, a1, a2 := BeginObserve(thread, metric, true), Capture(thread), Insert(thread);
    ThreeSteps(s, a0, a1, a2);
    BegunAtMostOnce(s, a0);
    BegunAtMostOnce(Step(s, a0), a1);
    BegunAtMostOnce(Step(Step(s, a0), a1), a2);
    hide Step;
    StepInv(s, a0);
    StepInv(Step(s, a0), a1);
    StepInv(Step(Step(s, a0), a1), a2);
  }

  lemma BegunAtMostOnce(s: System, a: Action)
    ensures Step(s, a).history.begun <= s.history.begun + if a.Insert? then 1 else 0
  {
  }
}
