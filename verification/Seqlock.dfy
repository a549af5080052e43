/**
 The policy channel from the collector to worker processes: the collector publishes a
 payload byte by byte into shared memory between two generation bumps, and any number
 of workers read generation, length, bytes and generation again
 (BreadcrumbTraceCollector.__publish_effective_policy and
 BreadcrumbTraceEmitter.__current_effective_policy in src/python/common/breadcrumb_trace.py).

 Every shared read and write is one step; a publication may also be abandoned half-way.
 */
module Seqlock {
  import opened Octets

  type Payload = seq<Byte>

  const MAX_BYTES: nat := 64 * 1024

  datatype Writer =
    | Resting
    | Writing(payload: Payload, next: nat)  // generation odd, `next` bytes written
    | LengthWritten(payload: Payload)       // generation odd, bytes and length written

  datatype Phase =
    | Ready
    | GenerationRead(generation: nat)
    | LengthRead(generation: nat, length: nat, raw: Payload)

  datatype Outcome = Nothing | Policy(payload: Payload)

  /** `cachedGeneration` is -1 until a first policy was decoded. */
  datatype Reader = Reader(phase: Phase, cachedGeneration: int, cached: Payload, outcome: Outcome)

  /** `published` records, for the proof, which payload each completed publication wrote. */
  datatype State = State(
    generation: nat, length: nat, bytes: seq<Byte>, writer: Writer,
    readers: seq<Reader>, published: map<nat, Payload>)

  datatype Action =
    | Publish(payload: Payload)
    | WriterStep
    | Abandon
    | ReaderStep(reader: nat, decodes: bool)

  function StartPublication(s: State, payload: Payload): State {
    if s.writer != Resting || |payload| > MAX_BYTES then s
    else s.(generation := if s.generation % 2 == 0 then s.generation + 1 else s.generation,
            writer := Writing(payload, 0))
  }

  function StepWriter(s: State): State {
    match s.writer
    case Resting => s
    case Writing(payload, next) =>
      if next < |payload| && next < |s.bytes| then
        s.(bytes := s.bytes[next := payload[next]], writer := Writing(payload, next + 1))
      else s.(length := |payload|, writer := LengthWritten(payload))
    case LengthWritten(payload) =>
      s.(generation := s.generation + 1, writer := Resting,
         published := s.published[s.generation + 1 := payload])
  }

  /** One shared read of `__current_effective_policy`; `decodes` says whether JSON decoding succeeds. */
  function StepReader(s: State, r: Reader, decodes: bool): Reader {
    match r.phase
    case Ready =>
      if s.generation == r.cachedGeneration then r.(outcome := Policy(r.cached))
      else if s.generation % 2 == 1 then r.(outcome := Nothing)
      else r.(phase := GenerationRead(s.generation))
    case GenerationRead(g) =>
      if s.length > MAX_BYTES then r.(phase := Ready, outcome := Nothing)
      else r.(phase := LengthRead(g, s.length, []))
    case LengthRead(g, length, raw) =>
      if |raw| < length && |raw| < |s.bytes| then r.(phase := LengthRead(g, length, raw + [s.bytes[|raw|]]))
      else if s.generation != g || raw == [] || !decodes then r.(phase := Ready, outcome := Nothing)
      else Reader(Ready, g, raw, Policy(raw))
  }

  function Step(s: State, a: Action): State {
    match a
    case Publish(payload) => StartPublication(s, payload)
    case WriterStep => StepWriter(s)
    case Abandon => s.(writer := Resting)
    case ReaderStep(i, decodes) =>
      if i < |s.readers| then s.(readers := s.readers[i := StepReader(s, s.readers[i], decodes)]) else s
  }

  function Run(s: State, actions: seq<Action>): State
    decreases |actions|
  {
    if actions == [] then s else Run(Step(s, actions[0]), actions[1..])
  }

  function Init(n: nat): State {
    State(0, 0, seq(MAX_BYTES, _ => 0), Resting, seq(n, _ => Reader(Ready, -1, [], Nothing)), map[])
  }

  // ---- invariant ----------------------------------------------------------

  /** What the shared buffer holds when no publication is under way at generation `g`. */
  ghost function Whole(s: State, g: nat): Payload { if g in s.published then s.published[g] else [] }

  ghost predicate BufferInv(s: State) {
    && |s.bytes| == MAX_BYTES
    && (forall g | g in s.published :: g <= s.generation && |s.published[g]| <= MAX_BYTES)
    && (s.generation % 2 == 0 ==>
          s.writer == Resting && s.length == |Whole(s, s.generation)| <= MAX_BYTES &&
          s.bytes[..s.length] == Whole(s, s.generation))
    && (s.writer.Writing? ==>
          s.writer.next <= |s.writer.payload| <= MAX_BYTES &&
          s.bytes[..s.writer.next] == s.writer.payload[..s.writer.next])
    && (s.writer.LengthWritten? ==>
          s.length == |s.writer.payload| <= MAX_BYTES && s.bytes[..s.length] == s.writer.payload)
  }

  /** A reader that began at the current generation has so far read that generation's payload. */
  ghost predicate ReaderInv(s: State, r: Reader) {
    && r.cachedGeneration <= s.generation
    && (r.cachedGeneration >= 0 ==> r.cachedGeneration in s.published && r.cached == s.published[r.cachedGeneration])
    && (!r.phase.Ready? ==> r.cachedGeneration <= r.phase.generation <= s.generation && r.phase.generation % 2 == 0)
    && (r.phase.LengthRead? && r.phase.generation == s.generation ==>
          r.phase.length == s.length && |r.phase.raw| <= s.length <= |s.bytes| &&
          r.phase.raw == s.bytes[..|r.phase.raw|])
    && (r.outcome.Policy? ==> exists g :: g in s.published && s.published[g] == r.outcome.payload)
  }

  ghost predicate Inv(s: State) {
    BufferInv(s) && forall i | 0 <= i < |s.readers| :: ReaderInv(s, s.readers[i])
  }

  // ---- the invariant is inductive -------------------------------------------

  lemma WriterKeepsBuffer(s: State)
    requires BufferInv(s)
    ensures BufferInv(StepWriter(s))
  {
    if s.writer.Writing? && s.writer.next < |s.writer.payload| {
      var k := s.writer.next;
      var b := s.bytes[k := s.writer.payload[k]];
      assert b[..k + 1] == b[..k] + [b[k]] && b[..k] == s.bytes[..k];
      assert s.writer.payload[..k + 1] == s.writer.payload[..k] + [s.writer.payload[k]];
    } else if s.writer.Writing? {
      assert s.writer.payload[..s.writer.next] == s.writer.payload;
    }
  }

  /** No shared cell a current-generation reader depends on moves while the generation is even. */
  lemma WriterKeepsReader(s: State, r: Reader)
    requires BufferInv(s) && ReaderInv(s, r)
    ensures ReaderInv(StepWriter(s), r)
  {
    var t := StepWriter(s);
    assert forall g | g in s.published :: g in t.published && t.published[g] == s.published[g];
  }

  lemma ReaderKeepsReader(s: State, r: Reader, decodes: bool)
    requires BufferInv(s) && ReaderInv(s, r)
    ensures ReaderInv(s, StepReader(s, r, decodes))
    ensures r.cachedGeneration <= StepReader(s, r, decodes).cachedGeneration
  {
    if r.phase.LengthRead? && r.phase.generation == s.generation {
      var raw := r.phase.raw;
      if |raw| < s.length {
        assert s.bytes[..|raw| + 1] == s.bytes[..|raw|] + [s.bytes[|raw|]];
      } else {
        assert raw == Whole(s, s.generation);
      }
    }
  }

  lemma StepInv(s: State, a: Action)
    requires Inv(s)
    ensures Inv(Step(s, a))
  {
    hide BufferInv;
    hide ReaderInv;
    match a
    case Publish(payload) => PublishKeeps(s, payload);
    case WriterStep =>
      WriterKeepsBuffer(s);
      forall i | 0 <= i < |s.readers| ensures ReaderInv(StepWriter(s), s.readers[i]) {
        WriterKeepsReader(s, s.readers[i]);
      }
    case Abandon => AbandonKeeps(s);
    case ReaderStep(i, decodes) =>
      if i < |s.readers| {
        ReaderKeepsReader(s, s.readers[i], decodes);
        var t := Step(s, a);
        OthersKeep(s, t);
        forall j | 0 <= j < |t.readers| ensures ReaderInv(t, t.readers[j]) {
          SameShared(s, t, t.readers[j]);
        }
      }
  }

  lemma PublishKeeps(s: State, payload: Payload)
    requires Inv(s)
    ensures Inv(StartPublication(s, payload))
  {
  }

  lemma AbandonKeeps(s: State)
    requires Inv(s)
    ensures Inv(s.(writer := Resting))
  {
  }

  lemma OthersKeep(s: State, t: State)
    requires BufferInv(s) && t == s.(readers := t.readers)
    ensures BufferInv(t)
  {
  }

  lemma SameShared(s: State, t: State, r: Reader)
    requires ReaderInv(s, r) && t == s.(readers := t.readers)
    ensures ReaderInv(t, r)
  {
  }

  lemma {:induction false} RunInv(s: State, actions: seq<Action>)
    requires Inv(s)
    ensures Inv(Run(s, actions))
    decreases |actions|
  {
    if actions != [] {
      StepInv(s, actions[0]);
      RunInv(Step(s, actions[0]), actions[1..]);
    }
  }

  lemma InitInv(n: nat)
    ensures Inv(Init(n))
  {
  }

  // ---- theorems ---------------------------------------------------------------

  /** The payload under way and everything published are among these. */
  ghost predicate From(s: State, ps: set<Payload>) {
    && (s.writer.Writing? || s.writer.LengthWritten? ==> s.writer.payload in ps)
    && (forall g | g in s.published :: s.published[g] in ps)
  }

  function Sent(actions: seq<Action>): set<Payload> { set a | a in actions && a.Publish? :: a.payload }

  lemma {:induction false} RunFrom(s: State, actions: seq<Action>, ps: set<Payload>)
    requires From(s, ps)
    ensures From(Run(s, actions), ps + Sent(actions))
    decreases |actions|
  {
    if actions == [] {
      assert ps + Sent(actions) == ps;
    } else {
      var first := if actions[0].Publish? then {actions[0].payload} else {};
      assert From(Step(s, actions[0]), ps + first);
      RunFrom(Step(s, actions[0]), actions[1..], ps + first);
      assert ps + first + Sent(actions[1..]) == ps + Sent(actions) by {
        assert forall a | a in actions :: a == actions[0] || a in actions[1..];
      }
    }
  }

  /** Whatever is ever published was handed to a publication of the run, whole. */
  lemma PublishedWasSent(n: nat, actions: seq<Action>, g: nat)
    requires g in Run(Init(n), actions).published
    ensures Publish(Run(Init(n), actions).published[g]) in actions
  {
    RunFrom(Init(n), actions, {});
  }

  /** No torn read: whatever a reader returns is nothing or the whole payload of one publication of the run. */
  lemma NoTornRead(n: nat, actions: seq<Action>, i: nat)
    requires i < n
    ensures var s := Run(Init(n), actions);
            i < |s.readers| &&
            (s.readers[i].outcome == Nothing ||
             (s.readers[i].outcome.Policy? && Publish(s.readers[i].outcome.payload) in actions))
  {
    InitInv(n);
    RunInv(Init(n), actions);
    SameReaders(Init(n), actions);
    var s := Run(Init(n), actions);
    if s.readers[i].outcome.Policy? {
      assert ReaderInv(s, s.readers[i]);
      var g :| g in s.published && s.readers[i].outcome == Policy(s.published[g]);
      PublishedWasSent(n, actions, g);
    }
  }

  lemma {:induction false} SameReaders(s: State, actions: seq<Action>)
    ensures |Run(s, actions).readers| == |s.readers|
    decreases |actions|
  {
    if actions != [] { SameReaders(Step(s, actions[0]), actions[1..]); }
  }

  /** Over any continuation the cached generation never goes backwards and names a whole publication. */
  lemma {:induction false} CacheIsMonotone(s: State, actions: seq<Action>, i: nat)
    requires Inv(s) && i < |s.readers|
    ensures var t := Run(s, actions);
            && i < |t.readers|
            && s.readers[i].cachedGeneration <= t.readers[i].cachedGeneration <= t.generation
            && (t.readers[i].cachedGeneration >= 0 ==>
                  t.readers[i].cachedGeneration in t.published &&
                  t.readers[i].cached == t.published[t.readers[i].cachedGeneration])
    decreases |actions|
  {
    if actions != [] {
      var t := Step(s, actions[0]);
      StepInv(s, actions[0]);
      if actions[0].ReaderStep? && actions[0].reader == i {
        ReaderKeepsReader(s, s.readers[i], actions[0].decodes);
      }
      CacheIsMonotone(t, actions[1..], i);
    }
  }

  /** A publication's record is never rewritten: the payload of a generation is fixed once published. */
  lemma {:induction false} PublishedIsFinal(s: State, actions: seq<Action>, g: nat)
    requires Inv(s) && g in s.published
    ensures var t := Run(s, actions); g in t.published && t.published[g] == s.published[g]
    decreases |actions|
  {
    if actions != [] {
      StepInv(s, actions[0]);
      PublishedIsFinal(Step(s, actions[0]), actions[1..], g);
    }
  }

  // ---- a read without interference succeeds -----------------------------------

  function ReadAlone(s: State, r: Reader, steps: nat): Reader
    decreases steps
  {
    if steps == 0 then r else ReadAlone(s, StepReader(s, r, true), steps - 1)
  }

  lemma {:induction false} BytesAlone(s: State, r: Reader)
    requires BufferInv(s) && s.generation % 2 == 0 && s.generation in s.published
    requires s.published[s.generation] != []
    requires r.phase.LengthRead? && r.phase.generation == s.generation && r.phase.length == s.length
    requires |r.phase.raw| <= s.length && r.phase.raw == s.bytes[..|r.phase.raw|]
    ensures var r' := ReadAlone(s, r, s.length - |r.phase.raw| + 1);
            r' == Reader(Ready, s.generation, s.published[s.generation], Policy(s.published[s.generation]))
    decreases s.length - |r.phase.raw|
  {
    var raw := r.phase.raw;
    if |raw| < s.length {
      assert s.bytes[..|raw| + 1] == raw + [s.bytes[|raw|]];
      BytesAlone(s, StepReader(s, r, true));
    } else {
      assert raw == s.published[s.generation];
      var r1 := StepReader(s, r, true);
      assert ReadAlone(s, r, 1) == ReadAlone(s, r1, 0) == r1;
    }
  }

  /** A reader that is not overtaken by a publication obtains exactly the current policy. */
  lemma QuietReadSucceeds(s: State, r: Reader)
    requires Inv(s) && r in s.readers && r.phase == Ready
    requires s.generation % 2 == 0 && s.generation in s.published && s.published[s.generation] != []
    ensures exists steps :: 1 <= steps <= |s.published[s.generation]| + 3 &&
              ReadAlone(s, r, steps).outcome == Policy(s.published[s.generation])
  {
    if s.generation == r.cachedGeneration {
      assert ReadAlone(s, r, 1) == ReadAlone(s, StepReader(s, r, true), 0);
    } else {
      var r1 := StepReader(s, r, true);
      var r2 := StepReader(s, r1, true);
      BytesAlone(s, r2);
      assert ReadAlone(s, r, s.length + 3) == ReadAlone(s, r1, s.length + 2) == ReadAlone(s, r2, s.length + 1);
    }
  }

  // ---- a publication that is not abandoned is complete --------------------------------

  function WriteAlone(s: State, steps: nat): State
    decreases steps
  {
    if steps == 0 then s else WriteAlone(StepWriter(s), steps - 1)
  }

  lemma {:induction false} WriteAloneIsRun(s: State, steps: nat)
    ensures WriteAlone(s, steps) == Run(s, seq(steps, _ => WriterStep))
    decreases steps
  {
    hide StepWriter;
    if steps > 0 {
      WriteAloneIsRun(StepWriter(s), steps - 1);
      var actions: seq<Action> := seq(steps, _ => WriterStep);
      assert actions[1..] == seq(steps - 1, _ => WriterStep);
    }
  }

  lemma {:induction false} BytesWritten(s: State)
    requires BufferInv(s) && s.writer.Writing?
    ensures var p := s.writer.payload;
            var t := WriteAlone(s, |p| - s.writer.next + 2);
            && t.writer == Resting && t.generation == s.generation + 1
            && t.length == |p| && |t.bytes| == |s.bytes| && t.bytes[..|p|] == p
            && t.published == s.published[t.generation := p] && t.readers == s.readers
    decreases |s.writer.payload| - s.writer.next
  {
    var p, k := s.writer.payload, s.writer.next;
    var t := StepWriter(s);
    WriterKeepsBuffer(s);
    if k < |p| {
      BytesWritten(t);
    } else {
      var u := StepWriter(t);
      assert WriteAlone(s, 2) == WriteAlone(t, 1) == WriteAlone(u, 0) == u;
    }
  }

  /** A publication of at most 64 KiB that nobody interrupts takes one step per byte and two more, and leaves its
      whole payload in the buffer, its length, and an even generation that was never used before. */
  lemma PublicationLands(s: State, p: Payload)
    requires Inv(s) && s.writer == Resting && |p| <= 64 * 1024
    ensures var t := Run(Step(s, Publish(p)), seq(|p| + 2, _ => WriterStep));
            && t.writer == Resting && t.generation % 2 == 0 && t.generation > s.generation
            && t.length == |p| <= |t.bytes| && t.bytes[..|p|] == p && t.readers == s.readers
            && t.generation in t.published && t.published[t.generation] == p
  {
    var s1 := Step(s, Publish(p));
    StepInv(s, Publish(p));
    BytesWritten(s1);
    WriteAloneIsRun(s1, |p| + 2);
  }

  /** Also after an abandoned publication, which leaves the generation odd. */
  lemma AbandonedThenPublished(s: State, p: Payload)
    requires Inv(s) && |p| <= 64 * 1024
    ensures var t := Run(Step(Step(s, Abandon), Publish(p)), seq(|p| + 2, _ => WriterStep));
            t.generation % 2 == 0 && t.length == |p| <= |t.bytes| && t.bytes[..|p|] == p
  {
    hide Run;
    StepInv(s, Abandon);
    PublicationLands(Step(s, Abandon), p);
  }

  /** Reader `i` takes some steps on its own. */
  function ReadBy(s: State, i: nat, steps: nat): State { Run(s, seq(steps, _ => ReaderStep(i, true))) }

  lemma {:induction false} ReadAloneIsRun(s: State, i: nat, steps: nat)
    requires i < |s.readers|
    ensures ReadBy(s, i, steps) ==
            s.(readers := s.readers[i := ReadAlone(s, s.readers[i], steps)])
    decreases steps
  {
    hide StepReader;
    if steps == 0 {
      assert s.readers[i := s.readers[i]] == s.readers;
    } else {
      var t := Step(s, ReaderStep(i, true));
      var actions: seq<Action> := seq(steps, _ => ReaderStep(i, true));
      assert actions[1..] == seq(steps - 1, _ => ReaderStep(i, true));
      ReadAloneIsRun(t, i, steps - 1);
      SharedOnly(s, t, t.readers[i], steps - 1);
      var r' := ReadAlone(s, t.readers[i], steps - 1);
      assert t.readers[i := r'] == s.readers[i := r'];
    }
  }

  /** A reader looks at the shared cells only, never at other readers. */
  lemma {:induction false} SharedOnly(s: State, t: State, r: Reader, steps: nat)
    requires s.generation == t.generation && s.length == t.length && s.bytes == t.bytes
    ensures ReadAlone(s, r, steps) == ReadAlone(t, r, steps)
    decreases steps
  {
    if steps > 0 {
      assert StepReader(s, r, true) == StepReader(t, r, true);
      SharedOnly(s, t, StepReader(s, r, true), steps - 1);
    }
  }

  /** End to end: after such a publication an undisturbed reader obtains exactly that payload. */
  lemma PublishedIsRead(s: State, p: Payload, i: nat)
    requires Inv(s) && s.writer == Resting && 0 < |p| <= 64 * 1024 && i < |s.readers| && s.readers[i].phase == Ready
    ensures var t := Run(Step(s, Publish(p)), seq(|p| + 2, _ => WriterStep));
            exists steps | 1 <= steps <= |p| + 3 ::
              i < |ReadBy(t, i, steps).readers| && ReadBy(t, i, steps).readers[i].outcome == Policy(p)
  {
    hide Run;
    hide ReadBy;
    hide Step;
    hide ReadAlone;
    hide Inv;
    PublicationLands(s, p);
    StepInv(s, Publish(p));
    RunInv(Step(s, Publish(p)), seq(|p| + 2, _ => WriterStep));
    var t := Run(Step(s, Publish(p)), seq(|p| + 2, _ => WriterStep));
    QuietReadSucceeds(t, t.readers[i]);
    var steps :| 1 <= steps <= |p| + 3 && ReadAlone(t, t.readers[i], steps).outcome == Policy(p);
    ReadAloneIsRun(t, i, steps);
    assert i < |ReadBy(t, i, steps).readers| && ReadBy(t, i, steps).readers[i].outcome == Policy(p);
  }

  /** How an attempt ends: with the current policy if it was cached, or if all of its bytes were read at one even
      generation and decode; with nothing if a publication is under way, overtook it, or did not decode. It does end
      once it has read as many bytes as it saw announced. */
  lemma AttemptEnds(s: State, r: Reader, decodes: bool)
    requires Inv(s) && r in s.readers
    ensures var r' := StepReader(s, r, decodes);
            && (r.phase.LengthRead? && |r.phase.raw| >= r.phase.length ==> r'.phase == Ready)
            && (r.phase == Ready && (s.generation == r.cachedGeneration || s.generation % 2 == 1) ==> r'.phase == Ready)
            && (r'.phase == Ready ==>
                  r'.outcome == if r.phase == Ready && s.generation == r.cachedGeneration then Policy(r.cached)
                                else if r.phase.LengthRead? && r.phase.generation == s.generation && decodes &&
                                        s.generation in s.published && s.published[s.generation] != []
                                then Policy(s.published[s.generation]) else Nothing)
  {
    assert ReaderInv(s, r);
    if r.phase.LengthRead? && r.phase.generation == s.generation && |r.phase.raw| >= s.length {
      assert r.phase.raw == Whole(s, s.generation);
    }
  }
}
