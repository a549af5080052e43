/**
 The remote-delete lineage of AutoQueue (src/python/controller/auto_queue.py).

 A cycle sees the listener's buffers, the lineage sets and the controller's model. What the controller,
 the patterns and the queue lane answer is a parameter of the cycle, so every answer is covered; a cycle may
 also be cut short by an exception, before, inside or after the selection of remote deletes.
 */
module RemoteDelete {
  import opened Options

  datatype State =
    | Default | Downloading | Queued | Downloaded | Deleted | Extracting | Extracted
    | Validating | Validated | Corrupt | MoveFailed

  datatype File = File(id: string, pair: Option<string>, state: State, isDir: bool, extractable: bool,
                       transferable: bool)

  type Event = (File, File)

  /** Where an exception leaves the cycle; BetweenDiscards: within one event, after the deferred set and before the
      initial set let go of its id. */
  datatype Fault =
    | NoFault
    | BeforeFilter
    | InFilter(news: nat, events: nat)
    | BetweenDiscards(events: nat)
    | Sending(sent: nat)

  datatype Config = Config(enabled: bool, autoDelete: bool, patternsOnly: bool)

  /** What one cycle is told: the model's roots and the answers of the controller and its collaborators. */
  datatype Env = Env(
    queueEnabled: bool, newPatterns: bool, roots: seq<File>, reconciled: Option<string> -> bool,
    published: File -> bool, eligible: File -> bool, pairEnabled: File -> bool, matches: File -> bool,
    queue: QueueLane, fault: Fault)

  datatype QueueLane = QueueLane(
    grew: (File, File) -> bool, stopped: string -> bool, ownedIncomplete: File -> bool, selected: set<string>)

  // ---- the model by id ------------------------------------------------------------------

  /** `__current_model_by_id`: the last root with an id wins. */
  function ById(roots: seq<File>): (m: map<string, File>)
    ensures forall k | k in m :: m[k] in roots && m[k].id == k
    ensures forall f | f in roots :: f.id in m
    ensures roots != [] ==> m[roots[|roots| - 1].id] == roots[|roots| - 1]
  {
    if roots == [] then map[]
    else ById(roots[..|roots| - 1])[roots[|roots| - 1].id := roots[|roots| - 1]]
  }

  predicate Ready(env: Env, f: File) { env.reconciled(f.pair) }

  predicate Active(s: State) { s == Queued || s == Downloading }

  // ---- what counts as a completion --------------------------------------------------------

  /** `__is_remote_delete_transition`. */
  predicate Transition(before: File, after: File) {
    after.transferable && before.state != after.state &&
    if after.state == Extracted then before.state == Extracting
    else after.state == Downloaded && !after.extractable && before.state != Extracted && before.state != Extracting
  }

  /** The event is about id, and the controller's current file for it is reconciled. */
  predicate Concerns(env: Env, current: map<string, File>, id: string, e: Event) {
    e.1.id == id && id in current && Ready(env, current[id])
  }

  /** Proof that this process transferred the file: a live transfer before, or its own publication. */
  predicate Evidence(env: Env, current: map<string, File>, id: string, e: Event) {
    Concerns(env, current, id, e) && (Active(e.0.state) || env.published(current[id]))
  }

  predicate Completes(cfg: Config, env: Env, current: map<string, File>, id: string, e: Event) {
    && Concerns(env, current, id, e)
    && env.pairEnabled(current[id]) && env.eligible(current[id])
    && Transition(e.0, current[id])
    && (cfg.patternsOnly ==> env.matches(current[id]))
  }

  // ---- what a selection does, said once for all events ------------------------------------

  datatype Lineage = Lineage(deferred: set<string>, initial: set<string>)

  predicate Blocked(l: Lineage, id: string) { id in l.deferred || id in l.initial }

  predicate Unreconciled(env: Env, current: map<string, File>, id: string) { id in current && !Ready(env, current[id]) }

  predicate Proven(env: Env, current: map<string, File>, id: string, events: seq<Event>) {
    exists j | 0 <= j < |events| :: Evidence(env, current, id, events[j])
  }

  /** Ids first announced while unreconciled join the initial set. */
  function Announce(env: Env, current: map<string, File>, news: seq<File>, l: Lineage): Lineage {
    l.(initial := l.initial + (set f | f in news && Unreconciled(env, current, f.id) :: f.id))
  }

  /** An id is selected exactly when some event completes it and it was free, or evidence came no later. */
  ghost predicate Selects(cfg: Config, env: Env, current: map<string, File>, l: Lineage, events: seq<Event>,
                          id: string) {
    exists i | 0 <= i < |events| ::
      && Completes(cfg, env, current, id, events[i])
      && (!Blocked(l, id) || Proven(env, current, id, events[..i + 1]))
  }

  ghost predicate StaysDeferred(env: Env, current: map<string, File>, l: Lineage, events: seq<Event>, id: string) {
    if Unreconciled(env, current, id) then id in l.deferred || exists i | 0 <= i < |events| :: events[i].1.id == id
    else id in l.deferred && !Proven(env, current, id, events)
  }

  ghost predicate Filtered(cfg: Config, env: Env, l: Lineage, events: seq<Event>, l': Lineage, matched: seq<string>) {
    var current := ById(env.roots);
    && (forall id :: id in matched <==> Selects(cfg, env, current, l, events, id))
    && (forall i, j | 0 <= i < j < |matched| :: matched[i] != matched[j])
    && (forall id :: id in l'.deferred <==> StaysDeferred(env, current, l, events, id))
    && (forall id :: id in l'.initial <==> id in l.initial && !Proven(env, current, id, events))
  }

  // ---- one event more ----------------------------------------------------------------------

  lemma ProvenMore(env: Env, current: map<string, File>, id: string, events: seq<Event>, e: Event)
    ensures Proven(env, current, id, events + [e]) <==>
            Proven(env, current, id, events) || Evidence(env, current, id, e)
  {
    hide Evidence;
    var more := events + [e];
    if Proven(env, current, id, events) {
      var j :| 0 <= j < |events| && Evidence(env, current, id, events[j]);
      assert Evidence(env, current, id, more[j]);
    }
    if Evidence(env, current, id, e) {
      assert Evidence(env, current, id, more[|events|]);
    }
  }

  lemma SelectsMore(cfg: Config, env: Env, current: map<string, File>, l: Lineage, events: seq<Event>, e: Event,
                    id: string)
    ensures Selects(cfg, env, current, l, events + [e], id) <==>
            Selects(cfg, env, current, l, events, id) ||
            (Completes(cfg, env, current, id, e) && (!Blocked(l, id) || Proven(env, current, id, events + [e])))
  {
    hide Completes;
    hide Blocked;
    hide Proven;
    var more := events + [e];
    forall i | 0 <= i < |events| ensures more[..i + 1] == events[..i + 1] && more[i] == events[i] {
    }
    assert more[..|events| + 1] == more && more[|events|] == e;
  }

  lemma DeferredMore(env: Env, current: map<string, File>, l: Lineage, events: seq<Event>, e: Event, id: string)
    ensures StaysDeferred(env, current, l, events + [e], id) <==>
            if Unreconciled(env, current, id) then StaysDeferred(env, current, l, events, id) || e.1.id == id
            else StaysDeferred(env, current, l, events, id) && !Evidence(env, current, id, e)
  {
    ProvenMore(env, current, id, events, e);
    var more := events + [e];
    forall i | 0 <= i < |events| ensures more[i] == events[i] {
    }
    assert more[|events|] == e;
  }

  // ---- the cycle ----------------------------------------------------------------------------

  datatype Buffers = Buffers(news: seq<File>, events: seq<Event>, removed: set<string>)

  datatype Memory = Memory(lineage: Lineage, buffers: Buffers)

  function Without(l: Lineage, ids: set<string>): Lineage { Lineage(l.deferred - ids, l.initial - ids) }

  function Within(l: Lineage, ids: set<string>): Lineage { Lineage(l.deferred * ids, l.initial * ids) }

  predicate Idle(env: Env, b: Buffers) { !env.newPatterns && b.news == [] && b.events == [] }

  /** `__retain_remote_growth_event`. */
  predicate Retains(cfg: Config, env: Env, current: map<string, File>, e: Event) {
    && e.1.id in current
    && (|| !Ready(env, e.1)
        || (&& Active(e.0.state) && env.queue.grew(e.0, e.1) && e.1.id !in env.queue.selected
            && var f := current[e.1.id];
            && f.isDir && f.transferable && !env.queue.stopped(f.id)
            && (|| Active(f.state)
                || (f.state == Default && env.queue.ownedIncomplete(f) && env.pairEnabled(f) &&
                    (cfg.patternsOnly ==> env.matches(f))))))
  }

  predicate KeepsNew(env: Env, current: map<string, File>, f: File) { f.id in current && !Ready(env, f) }

  function Keep<T(!new)>(s: seq<T>, p: T -> bool): (r: seq<T>)
    ensures forall x :: x in r <==> x in s && p(x)
  {
    if s == [] then [] else Keep(s[..|s| - 1], p) + if p(s[|s| - 1]) then [s[|s| - 1]] else []
  }

  function Least(a: nat, b: nat): nat { if a <= b then a else b }

  function Upto<T>(s: seq<T>, n: nat): seq<T> { s[..Least(n, |s|)] }

  /** The selection as the cycle runs it: skipped unless both switches are on. */
  ghost predicate Selected(cfg: Config, env: Env, l: Lineage, news: seq<File>, events: seq<Event>, l': Lineage,
                           matched: seq<string>) {
    if cfg.enabled && cfg.autoDelete then
      Filtered(cfg, env, Announce(env, ById(env.roots), news, l), events, l', matched)
    else l' == l && matched == []
  }

  /** The next event has released its id from the deferred set only. */
  function HalfJudged(cfg: Config, env: Env, l: Lineage, events: seq<Event>, k: nat): Lineage {
    if cfg.enabled && cfg.autoDelete && k < |events| && Evidence(env, ById(env.roots), events[k].1.id, events[k])
    then l.(deferred := l.deferred - {events[k].1.id}) else l
  }

  function Settled(cfg: Config, env: Env, l: Lineage, b: Buffers): Memory {
    var current := ById(env.roots);
    Memory(Within(l, current.Keys),
           Buffers(Keep(b.news, f => KeepsNew(env, current, f)), Keep(b.events, e => Retains(cfg, env, current, e)),
                   {}))
  }

  /** The part of a cycle that has something to look at, as far as its fault lets it run. */
  ghost predicate Works(cfg: Config, env: Env, l: Lineage, b: Buffers, m': Memory, deletes: seq<string>) {
    match env.fault
    case BeforeFilter => m' == Memory(l, b) && deletes == []
    case InFilter(news, events) =>
      m'.buffers == b && deletes == [] &&
      (exists matched :: Selected(cfg, env, l, Upto(b.news, news), Upto(b.events, events), m'.lineage, matched))
    case BetweenDiscards(events) =>
      m'.buffers == b && deletes == [] &&
      (exists l1, matched :: Selected(cfg, env, l, b.news, Upto(b.events, events), l1, matched) &&
                             m'.lineage == HalfJudged(cfg, env, l1, b.events, events))
    case Sending(sent) =>
      m'.buffers == b &&
      (exists matched :: Selected(cfg, env, l, b.news, b.events, m'.lineage, matched) && deletes == Upto(matched, sent))
    case NoFault =>
      (exists l' :: Selected(cfg, env, l, b.news, b.events, l', deletes) && m' == Settled(cfg, env, l', b))
  }

  /** `__process_once`: what it leaves behind and the remote deletes it issues. */
  ghost predicate Cycle(cfg: Config, env: Env, m: Memory, m': Memory, deletes: seq<string>) {
    var l := Without(m.lineage, m.buffers.removed);
    var b := m.buffers.(removed := {});
    if !cfg.enabled && !env.queueEnabled then m' == Memory(l, Buffers([], [], {})) && deletes == []
    else if Idle(env, b) then m' == Memory(l, b) && deletes == []
    else Works(cfg, env, l, b, m', deletes)
  }

  class AutoQueue {
    const cfg: Config
    var deferred: set<string>
    var initial: set<string>
    var newFiles: seq<File>
    var modified: seq<Event>
    var removed: set<string>

    ghost function Recall(): Memory
      reads this
    {
      Memory(Lineage(deferred, initial), Buffers(newFiles, modified, removed))
    }

    constructor (cfg: Config, files: seq<File>)
      ensures this.cfg == cfg && Recall() == Memory(Lineage({}, {}), Buffers(files, [], {}))
    {
      this.cfg := cfg;
      deferred, initial, newFiles, modified, removed := {}, {}, files, [], {};
    }

    method FileAdded(f: File)
      modifies this`newFiles
      ensures Next(cfg, old(Recall()), Added(f), Recall())
    {
      newFiles := newFiles + [f];
    }

    method FileUpdated(before: File, after: File)
      modifies this`modified
      ensures Next(cfg, old(Recall()), Updated(before, after), Recall())
    {
      modified := modified + [(before, after)];
    }

    method FileRemoved(f: File)
      modifies this`removed
      ensures Next(cfg, old(Recall()), Removed(f.id), Recall())
    {
      removed := removed + {f.id};
    }

    /** The first loop of `__filter_delete_remote_candidates`. */
    method AnnounceNew(env: Env, current: map<string, File>, news: seq<File>)
      modifies this`initial
      ensures Lineage(deferred, initial) == Announce(env, current, news, old(Lineage(deferred, initial)))
    {
      var i := 0;
      while i < |news|
        invariant 0 <= i <= |news|
        invariant initial == old(initial) + (set f | f in news[..i] && Unreconciled(env, current, f.id) :: f.id)
      {
        assert news[..i + 1] == news[..i] + [news[i]];
        if Unreconciled(env, current, news[i].id) {
          initial := initial + {news[i].id};
        }
        i := i + 1;
      }
      assert news[..i] == news;
    }

    /** One event of the second loop: lineage first, then the completion checks. */
    method JudgeEvent(env: Env, current: map<string, File>, e: Event) returns (chosen: bool)
      modifies this`deferred, this`initial
      ensures Lineage(deferred, initial) == Judged(env, current, old(Lineage(deferred, initial)), e)
      ensures chosen == Chooses(cfg, env, current, old(Lineage(deferred, initial)), e)
    {
      if e.1.id !in current {
        return false;
      }
      var f := current[e.1.id];
      var id := e.1.id;
      if !Ready(env, f) {
        deferred := deferred + {id};
        return false;
      }
      if id in deferred {
        if !Active(e.0.state) && !env.published(f) {
          return false;
        }
        deferred := deferred - {id};
      }
      if id in initial {
        if !Active(e.0.state) && !env.published(f) {
          return false;
        }
        initial := initial - {id};
      }
      if !env.pairEnabled(f) || !env.eligible(f) || !Transition(e.0, f) {
        return false;
      }
      chosen := !cfg.patternsOnly || env.matches(f);
    }

    /** The second loop, over all events in arrival order. */
    method FilterEvents(env: Env, current: map<string, File>, events: seq<Event>) returns (matched: seq<string>)
      requires current == ById(env.roots)
      modifies this`deferred, this`initial
      ensures Filtered(cfg, env, old(Lineage(deferred, initial)), events, Lineage(deferred, initial), matched)
    {
      hide Filtered;
      hide Judged;
      hide Chooses;
      hide ById;
      ghost var l := Lineage(deferred, initial);
      matched := [];
      FilteredNone(cfg, env, l);
      var i := 0;
      while i < |events|
        invariant 0 <= i <= |events|
        invariant Filtered(cfg, env, l, events[..i], Lineage(deferred, initial), matched)
      {
        ghost var l1, m1 := Lineage(deferred, initial), matched;
        var chosen := JudgeEvent(env, current, events[i]);
        if chosen && events[i].1.id !in matched {
          matched := matched + [events[i].1.id];
        }
        FilteredMore(cfg, env, l, events[..i], events[i], l1, m1);
        assert events[..i + 1] == events[..i] + [events[i]];
        i := i + 1;
      }
      assert events[..i] == events;
    }

    /** `__process_once`. */
    method ProcessOnce(env: Env) returns (deletes: seq<string>)
      modifies this
      ensures Next(cfg, old(Recall()), Process(env, deletes), Recall())
    {
      hide Filtered;
      hide Announce;
      deferred, initial, removed := deferred - removed, initial - removed, {};
      if !cfg.enabled && !env.queueEnabled {
        newFiles, modified := [], [];
        return [];
      }
      if !env.newPatterns && newFiles == [] && modified == [] {
        return [];
      }
      ghost var l, b := Lineage(deferred, initial), Recall().buffers;
      deletes := Work(env);
      assert Works(cfg, env, l, b, Recall(), deletes);
    }

    /** The cycle once there is something to look at. */
    method Work(env: Env) returns (deletes: seq<string>)
      requires removed == {}
      modifies this
      ensures Works(cfg, env, old(Recall()).lineage, old(Recall()).buffers, Recall(), deletes)
    {
      hide Filtered;
      hide Announce;
      if env.fault == BeforeFilter {
        return [];
      }
      ghost var l := Lineage(deferred, initial);
      var current := ById(env.roots);
      var news := if env.fault.InFilter? then Upto(newFiles, env.fault.news) else newFiles;
      var events := if env.fault.InFilter? || env.fault.BetweenDiscards? then Upto(modified, env.fault.events)
        else modified;
      var matched := Select(env, current, news, events);
      assert Selected(cfg, env, l, news, events, Lineage(deferred, initial), matched);
      match env.fault
      case InFilter(_, _) =>
        deletes := [];
      case BetweenDiscards(k) =>
        deletes := [];
        if cfg.enabled && cfg.autoDelete && k < |modified| && Evidence(env, current, modified[k].1.id, modified[k]) {
          deferred := deferred - {modified[k].1.id};
        }
      case Sending(sent) =>
        deletes := Upto(matched, sent);
      case NoFault =>
        deletes := matched;
        deferred, initial := deferred * current.Keys, initial * current.Keys;
        newFiles := Keep(newFiles, f => KeepsNew(env, current, f));
        var cfg := cfg;
        modified := Keep(modified, e => Retains(cfg, env, current, e));
    }

    /** `__filter_delete_remote_candidates` behind its two switches. */
    method Select(env: Env, current: map<string, File>, news: seq<File>, events: seq<Event>)
      returns (matched: seq<string>)
      requires current == ById(env.roots)
      modifies this`deferred, this`initial
      ensures Selected(cfg, env, old(Lineage(deferred, initial)), news, events, Lineage(deferred, initial), matched)
    {
      hide Filtered;
      hide Announce;
      matched := [];
      if cfg.enabled && cfg.autoDelete {
        AnnounceNew(env, current, news);
        matched := FilterEvents(env, current, events);
      }
    }
  }

  lemma FilteredNone(cfg: Config, env: Env, l: Lineage)
    ensures Filtered(cfg, env, l, [], l, [])
  {
  }

  /** Judging one more event keeps the description exact. */
  lemma FilteredMore(cfg: Config, env: Env, l: Lineage, events: seq<Event>, e: Event, l1: Lineage, matched: seq<string>)
    requires Filtered(cfg, env, l, events, l1, matched)
    ensures Filtered(cfg, env, l, events + [e], Judged(env, ById(env.roots), l1, e),
                     Matched(cfg, env, ById(env.roots), l1, e, matched))
  {
    var current := ById(env.roots);
    forall id
      ensures id in Matched(cfg, env, current, l1, e, matched) <==> Selects(cfg, env, current, l, events + [e], id)
      ensures id in Judged(env, current, l1, e).deferred <==> StaysDeferred(env, current, l, events + [e], id)
      ensures id in Judged(env, current, l1, e).initial <==> id in l.initial && !Proven(env, current, id, events + [e])
    {
      FilteredMoreId(cfg, env, l, events, e, l1, matched, id);
    }
  }

  function Judged(env: Env, current: map<string, File>, l: Lineage, e: Event): Lineage {
    var id := e.1.id;
    Lineage(if Unreconciled(env, current, id) then l.deferred + {id}
            else if Evidence(env, current, id, e) then l.deferred - {id} else l.deferred,
            if Evidence(env, current, id, e) then l.initial - {id} else l.initial)
  }

  predicate Chooses(cfg: Config, env: Env, current: map<string, File>, l: Lineage, e: Event) {
    Completes(cfg, env, current, e.1.id, e) && (Evidence(env, current, e.1.id, e) || !Blocked(l, e.1.id))
  }

  function Matched(cfg: Config, env: Env, current: map<string, File>, l: Lineage, e: Event,
                   matched: seq<string>): seq<string> {
    var id := e.1.id;
    if Chooses(cfg, env, current, l, e) && id !in matched
    then matched + [id] else matched
  }

  lemma FilteredAt(cfg: Config, env: Env, l: Lineage, events: seq<Event>, l': Lineage, matched: seq<string>, id: string)
    requires Filtered(cfg, env, l, events, l', matched)
    ensures var current := ById(env.roots);
            && (id in matched <==> Selects(cfg, env, current, l, events, id))
            && (id in l'.deferred <==> StaysDeferred(env, current, l, events, id))
            && (id in l'.initial <==> id in l.initial && !Proven(env, current, id, events))
            && (Blocked(l, id) && !Proven(env, current, id, events) ==> Blocked(l', id))
            && (!Unreconciled(env, current, id) ==>
                (Blocked(l', id) <==> Blocked(l, id) && !Proven(env, current, id, events)))
  {
    hide Proven;
    hide Selects;
    hide Unreconciled;
  }

  lemma FilteredMoreId(cfg: Config, env: Env, l: Lineage, events: seq<Event>, e: Event, l1: Lineage,
                       matched: seq<string>, id: string)
    requires Filtered(cfg, env, l, events, l1, matched)
    ensures var current := ById(env.roots);
            && (id in Matched(cfg, env, current, l1, e, matched) <==> Selects(cfg, env, current, l, events + [e], id))
            && (id in Judged(env, current, l1, e).deferred <==> StaysDeferred(env, current, l, events + [e], id))
            && (id in Judged(env, current, l1, e).initial <==>
                id in l.initial && !Proven(env, current, id, events + [e]))
  {
    hide *;
    var current := ById(env.roots);
    ProvenMore(env, current, id, events, e);
    SelectsMore(cfg, env, current, l, events, e, id);
    DeferredMore(env, current, l, events, e, id);
    FilteredAt(cfg, env, l, events, l1, matched, id);
    JudgedAt(env, current, l1, e, id);
    MatchedAt(cfg, env, current, l1, e, matched, id);
  }

  lemma JudgedAt(env: Env, current: map<string, File>, l: Lineage, e: Event, id: string)
    ensures id in Judged(env, current, l, e).deferred <==>
            if Unreconciled(env, current, id) then id in l.deferred || e.1.id == id
            else id in l.deferred && !Evidence(env, current, id, e)
    ensures id in Judged(env, current, l, e).initial <==> id in l.initial && !Evidence(env, current, id, e)
  {
  }

  lemma MatchedAt(cfg: Config, env: Env, current: map<string, File>, l: Lineage, e: Event, matched: seq<string>,
                  id: string)
    ensures id in Matched(cfg, env, current, l, e, matched) <==>
            id in matched || (Completes(cfg, env, current, id, e) && (Evidence(env, current, id, e) || !Blocked(l, id)))
    ensures Completes(cfg, env, current, id, e) ==> !Unreconciled(env, current, id)
  {
  }

  // ---- one cycle -------------------------------------------------------------------------------

  /** What a remote delete is allowed to answer, on the fields: an extraction that finished, or a download of a file
      with nothing to extract that was not downloaded or extracted before. */
  predicate Finished(before: State, after: File) {
    && after.transferable
    && (|| (after.state == Extracted && before == Extracting)
        || (after.state == Downloaded && !after.extractable && before !in {Downloaded, Extracted, Extracting}))
  }

  /** What proves a transfer by this process, on the fields: the file is reconciled, and it was queued or downloading
      before or this process published it. */
  predicate ProvesTransfer(env: Env, f: File, e: Event) {
    e.1.id == f.id && env.reconciled(f.pair) && (e.0.state in {Queued, Downloading} || env.published(f))
  }

  lemma FieldsDecide(cfg: Config, env: Env, current: map<string, File>, id: string, e: Event)
    requires id in current && current[id].id == id
    ensures Transition(e.0, current[id]) <==> Finished(e.0.state, current[id])
    ensures Evidence(env, current, id, e) <==> ProvesTransfer(env, current[id], e)
    ensures var f := current[id];
            Completes(cfg, env, current, id, e) <==>
              && e.1.id == id && env.reconciled(f.pair) && Finished(e.0.state, f)
              && env.pairEnabled(f) && env.eligible(f) && (cfg.patternsOnly ==> env.matches(f))
  {
  }

  /** Nothing in this cycle lets the id go: it was not removed, it is in the model, and no event proves a transfer. */
  ghost predicate Undisturbed(env: Env, m: Memory, id: string) {
    && id !in m.buffers.removed && id in ById(env.roots)
    && forall e | e in m.buffers.events :: !ProvesTransfer(env, ById(env.roots)[id], e)
  }

  lemma UndisturbedMeans(env: Env, m: Memory, id: string)
    requires Undisturbed(env, m, id)
    ensures !Proven(env, ById(env.roots), id, m.buffers.events)
  {
    hide ById;
    hide Evidence;
    hide ProvesTransfer;
    var events := m.buffers.events;
    forall j | 0 <= j < |events| ensures !Evidence(env, ById(env.roots), id, events[j]) {
      assert events[j] in events;
      FieldsDecide(Config(true, true, true), env, ById(env.roots), id, events[j]);
    }
  }

  lemma ProvenPrefix(env: Env, current: map<string, File>, id: string, events: seq<Event>, n: nat)
    requires n <= |events| && Proven(env, current, id, events[..n])
    ensures Proven(env, current, id, events)
  {
    var j :| 0 <= j < n && Evidence(env, current, id, events[..n][j]);
    assert Evidence(env, current, id, events[j]);
  }

  lemma SelectedKeepsBlocked(cfg: Config, env: Env, l: Lineage, news: seq<File>, events: seq<Event>, n: nat,
                             l': Lineage, matched: seq<string>, id: string)
    requires Selected(cfg, env, l, news, Upto(events, n), l', matched)
    requires Blocked(l, id) && !Proven(env, ById(env.roots), id, events)
    ensures Blocked(l', id) && id !in matched
  {
    hide Filtered;
    hide Proven;
    hide Evidence;
    hide Completes;
    var current, prefix := ById(env.roots), Upto(events, n);
    if Proven(env, current, id, prefix) {
      ProvenPrefix(env, current, id, events, Least(n, |events|));
    }
    if cfg.enabled && cfg.autoDelete {
      var l1 := Announce(env, current, news, l);
      FilteredAt(cfg, env, l1, prefix, l', matched, id);
      if Selects(cfg, env, current, l1, prefix, id) {
        var i :| 0 <= i < |prefix| && Completes(cfg, env, current, id, prefix[i]) &&
          Proven(env, current, id, prefix[..i + 1]);
        ProvenPrefix(env, current, id, prefix, i + 1);
      }
    }
  }

  /** A blocked id that nothing disturbs stays blocked through a cycle, and the cycle does not delete it. */
  lemma CycleKeepsBlocked(cfg: Config, env: Env, m: Memory, m': Memory, deletes: seq<string>, id: string)
    requires Cycle(cfg, env, m, m', deletes) && Blocked(m.lineage, id) && Undisturbed(env, m, id)
    ensures Blocked(m'.lineage, id) && id !in deletes
  {
    hide Selected;
    hide Proven;
    hide ProvesTransfer;
    UndisturbedMeans(env, m, id);
    var l := Without(m.lineage, m.buffers.removed);
    var b := m.buffers.(removed := {});
    if (cfg.enabled || env.queueEnabled) && !Idle(env, b) {
      WorksKeepsBlocked(cfg, env, l, b, m', deletes, id);
    }
  }

  lemma HalfKeepsBlocked(cfg: Config, env: Env, l: Lineage, events: seq<Event>, k: nat, id: string)
    requires Blocked(l, id) && !Proven(env, ById(env.roots), id, events)
    ensures Blocked(HalfJudged(cfg, env, l, events, k), id)
  {
    hide Evidence;
    hide ById;
  }

  lemma WorksKeepsBlocked(cfg: Config, env: Env, l: Lineage, b: Buffers, m': Memory, deletes: seq<string>, id: string)
    requires Works(cfg, env, l, b, m', deletes)
    requires Blocked(l, id) && id in ById(env.roots) && !Proven(env, ById(env.roots), id, b.events)
    ensures Blocked(m'.lineage, id) && id !in deletes
  {
    hide Selected;
    hide Proven;
    hide Keep;
    assert Upto(b.events, |b.events|) == b.events;
    match env.fault
    case BeforeFilter =>
    case InFilter(news, events) =>
      var matched :| Selected(cfg, env, l, Upto(b.news, news), Upto(b.events, events), m'.lineage, matched);
      SelectedKeepsBlocked(cfg, env, l, Upto(b.news, news), b.events, events, m'.lineage, matched, id);
    case BetweenDiscards(events) =>
      var l1, matched :| Selected(cfg, env, l, b.news, Upto(b.events, events), l1, matched) &&
                         m'.lineage == HalfJudged(cfg, env, l1, b.events, events);
      SelectedKeepsBlocked(cfg, env, l, b.news, b.events, events, l1, matched, id);
      HalfKeepsBlocked(cfg, env, l1, b.events, events, id);
    case Sending(sent) =>
      var matched :| Selected(cfg, env, l, b.news, b.events, m'.lineage, matched) && deletes == Upto(matched, sent);
      SelectedKeepsBlocked(cfg, env, l, b.news, b.events, |b.events|, m'.lineage, matched, id);
    case NoFault =>
      var l' :| Selected(cfg, env, l, b.news, b.events, l', deletes) && m' == Settled(cfg, env, l', b);
      SelectedKeepsBlocked(cfg, env, l, b.news, b.events, |b.events|, l', deletes, id);
  }

  /** What a cycle that issued a delete, or got as far as sending them, selected. */
  lemma WorksSelected(cfg: Config, env: Env, l: Lineage, b: Buffers, m': Memory, deletes: seq<string>)
    returns (l': Lineage, matched: seq<string>)
    requires Works(cfg, env, l, b, m', deletes) && (deletes != [] || env.fault == NoFault || env.fault.Sending?)
    ensures Selected(cfg, env, l, b.news, b.events, l', matched)
    ensures forall id | id in deletes :: id in matched
    ensures m'.lineage.initial >= l'.initial * ById(env.roots).Keys
  {
    hide Selected;
    hide Keep;
    if env.fault == NoFault {
      matched := deletes;
      l' :| Selected(cfg, env, l, b.news, b.events, l', deletes) && m' == Settled(cfg, env, l', b);
    } else {
      l' := m'.lineage;
      matched :| Selected(cfg, env, l, b.news, b.events, l', matched) && deletes == Upto(matched, env.fault.sent);
    }
  }

  /** Every remote delete answers a completion event of this cycle, of a reconciled file the model still has; an
      extractable file is deleted only on EXTRACTING to EXTRACTED, and nothing is deleted with a switch off. */
  lemma DeletesAreCompletions(cfg: Config, env: Env, m: Memory, m': Memory, deletes: seq<string>, id: string)
    requires Cycle(cfg, env, m, m', deletes) && id in deletes
    ensures cfg.enabled && cfg.autoDelete
    ensures id in ById(env.roots) && Ready(env, ById(env.roots)[id])
    ensures var f := ById(env.roots)[id];
            && env.pairEnabled(f) && env.eligible(f) && (cfg.patternsOnly ==> env.matches(f))
            && exists e | e in m.buffers.events :: e.1.id == id && Finished(e.0.state, f)
  {
    hide Filtered;
    hide Keep;
    hide Announce;
    hide Blocked;
    hide ById;
    var l := Without(m.lineage, m.buffers.removed);
    var b := m.buffers.(removed := {});
    var l', matched := WorksSelected(cfg, env, l, b, m', deletes);
    var current := ById(env.roots);
    var l1 := Announce(env, current, b.news, l);
    FilteredAt(cfg, env, l1, b.events, l', matched, id);
    var i :| 0 <= i < |b.events| && Completes(cfg, env, current, id, b.events[i]);
    assert b.events[i] in m.buffers.events;
    FieldsDecide(cfg, env, current, id, b.events[i]);
  }

  /** The converse: a free id of a reconciled file in the model with a finished event is deleted by a faultless cycle,
      if its pair is enabled, the controller finds it eligible and the patterns match. */
  lemma FreeCompletionDeletes(cfg: Config, env: Env, m: Memory, m': Memory, deletes: seq<string>, f: File, e: Event)
    requires Cycle(cfg, env, m, m', deletes) && env.fault == NoFault && cfg.enabled && cfg.autoDelete
    requires f.id in ById(env.roots) && ById(env.roots)[f.id] == f && env.reconciled(f.pair)
    requires f.id !in m.lineage.deferred && f.id !in m.lineage.initial
    requires e in m.buffers.events && e.1.id == f.id && Finished(e.0.state, f)
    requires env.pairEnabled(f) && env.eligible(f) && (cfg.patternsOnly ==> env.matches(f))
    ensures f.id in deletes
  {
    hide Filtered;
    hide Keep;
    hide ById;
    var l := Without(m.lineage, m.buffers.removed);
    var b := m.buffers.(removed := {});
    assert !Idle(env, b);
    var l' :| Selected(cfg, env, l, b.news, b.events, l', deletes);
    var current := ById(env.roots);
    var l1 := Announce(env, current, b.news, l);
    FilteredAt(cfg, env, l1, b.events, l', deletes, f.id);
    FieldsDecide(cfg, env, current, f.id, e);
    var i :| 0 <= i < |b.events| && b.events[i] == e;
    assert Completes(cfg, env, current, f.id, b.events[i]) && !Blocked(l1, f.id);
  }

  /** A removed id is forgotten: unless the cycle meets it again, it is in neither set afterwards. */
  lemma RemovedIsForgotten(cfg: Config, env: Env, m: Memory, m': Memory, deletes: seq<string>, id: string)
    requires Cycle(cfg, env, m, m', deletes) && env.fault == NoFault && id in m.buffers.removed
    requires (forall f | f in m.buffers.news :: f.id != id) && (forall e | e in m.buffers.events :: e.1.id != id)
    ensures id !in m'.lineage.deferred && id !in m'.lineage.initial && id !in deletes && m'.buffers.removed == {}
  {
    hide Filtered;
    hide Keep;
    hide ById;
    var l := Without(m.lineage, m.buffers.removed);
    var b := m.buffers.(removed := {});
    if (cfg.enabled || env.queueEnabled) && !Idle(env, b) {
      var l' :| Selected(cfg, env, l, b.news, b.events, l', deletes) && m' == Settled(cfg, env, l', b);
      if cfg.enabled && cfg.autoDelete {
        FilteredAt(cfg, env, Announce(env, ById(env.roots), b.news, l), b.events, l', deletes, id);
      }
    }
  }

  /** What a faultless cycle keeps in its buffers, on the fields: announcements and events of unreconciled files that
      are still in the model, and growth of a directory seen during its transfer that the queue has yet to take up. */
  lemma KeptBuffers(cfg: Config, env: Env, m: Memory, m': Memory, deletes: seq<string>)
    requires Cycle(cfg, env, m, m', deletes) && env.fault == NoFault && (cfg.enabled || env.queueEnabled)
    requires m.buffers.news != [] || m.buffers.events != []
    ensures forall f :: f in m'.buffers.news <==>
            f in m.buffers.news && f.id in ById(env.roots) && !env.reconciled(f.pair)
    ensures forall e: Event :: e in m'.buffers.events <==>
              && e in m.buffers.events && e.1.id in ById(env.roots)
              && var f := ById(env.roots)[e.1.id];
              && (|| !env.reconciled(e.1.pair)
                  || (&& e.0.state in {Queued, Downloading} && env.queue.grew(e.0, e.1)
                      && e.1.id !in env.queue.selected && f.isDir && f.transferable && !env.queue.stopped(f.id)
                      && (|| f.state in {Queued, Downloading}
                          || (f.state == Default && env.queue.ownedIncomplete(f) && env.pairEnabled(f) &&
                              (cfg.patternsOnly ==> env.matches(f))))))
  {
    hide Selected;
    hide ById;
    var l := Without(m.lineage, m.buffers.removed);
    var b := m.buffers.(removed := {});
    assert !Idle(env, b);
    var l' :| Selected(cfg, env, l, b.news, b.events, l', deletes) && m' == Settled(cfg, env, l', b);
  }

  /** For a blocked id the cycle deletes exactly when a completion comes with, or after, evidence of a transfer. */
  lemma BlockedDeleteIff(cfg: Config, env: Env, m: Memory, m': Memory, deletes: seq<string>, id: string)
    requires Cycle(cfg, env, m, m', deletes) && env.fault == NoFault
    requires cfg.enabled && cfg.autoDelete && Blocked(m.lineage, id) && id !in m.buffers.removed
    ensures var current, events := ById(env.roots), m.buffers.events;
            id in deletes <==> exists i | 0 <= i < |events| ::
                                 Completes(cfg, env, current, id, events[i]) &&
                                 Proven(env, current, id, events[..i + 1])
  {
    hide Filtered;
    hide Keep;
    hide Completes;
    hide Proven;
    var l := Without(m.lineage, m.buffers.removed);
    var b := m.buffers.(removed := {});
    if !Idle(env, b) {
      var l' :| Selected(cfg, env, l, b.news, b.events, l', deletes);
      var l1 := Announce(env, ById(env.roots), b.news, l);
      FilteredAt(cfg, env, l1, b.events, l', deletes, id);
    }
  }

  /** A file announced while its pair is unreconciled is blocked when the cycle ends. */
  lemma FirstSeenUnreconciled(cfg: Config, env: Env, m: Memory, m': Memory, deletes: seq<string>, f: File)
    requires Cycle(cfg, env, m, m', deletes) && (env.fault == NoFault || env.fault.Sending?)
    requires cfg.enabled && cfg.autoDelete && f in m.buffers.news && Unreconciled(env, ById(env.roots), f.id)
    ensures f.id in m'.lineage.initial && f.id !in deletes
  {
    hide Filtered;
    hide Keep;
    var l := Without(m.lineage, m.buffers.removed);
    var b := m.buffers.(removed := {});
    var l', matched := WorksSelected(cfg, env, l, b, m', deletes);
    var l1 := Announce(env, ById(env.roots), b.news, l);
    FilteredAt(cfg, env, l1, b.events, l', matched, f.id);
  }

  // ---- whole runs --------------------------------------------------------------------------------

  datatype Step =
    | Added(file: File)
    | Updated(before: File, after: File)
    | Removed(id: string)
    | Process(env: Env, deletes: seq<string>)

  ghost predicate Next(cfg: Config, m: Memory, step: Step, m': Memory) {
    match step
    case Added(f) => m' == m.(buffers := m.buffers.(news := m.buffers.news + [f]))
    case Updated(before, after) => m' == m.(buffers := m.buffers.(events := m.buffers.events + [(before, after)]))
    case Removed(id) => m' == m.(buffers := m.buffers.(removed := m.buffers.removed + {id}))
    case Process(env, deletes) => Cycle(cfg, env, m, m', deletes)
  }

  ghost predicate Run(cfg: Config, ms: seq<Memory>, steps: seq<Step>) {
    |ms| == |steps| + 1 && forall k | 0 <= k < |steps| :: Next(cfg, ms[k], steps[k], ms[k + 1])
  }

  /** From any moment an id is in the deferred or the initial set, for as long as it stays in the model and no
      reconciled event proves a transfer of it, no cycle deletes it remotely and it stays in a set. */
  lemma {:induction false} NoDeleteBeforeEvidence(cfg: Config, ms: seq<Memory>, steps: seq<Step>, id: string)
    requires Run(cfg, ms, steps) && Blocked(ms[0].lineage, id)
    requires forall k | 0 <= k < |steps| :: steps[k].Process? ==> Undisturbed(steps[k].env, ms[k], id)
    ensures Blocked(ms[|steps|].lineage, id)
    ensures forall k | 0 <= k < |steps| :: steps[k].Process? ==> id !in steps[k].deletes
    decreases |steps|
  {
    hide Undisturbed;
    hide Cycle;
    hide Blocked;
    var n := |steps|;
    if n > 0 {
      NoDeleteBeforeEvidence(cfg, ms[..n], steps[..n - 1], id);
      NextKeepsBlocked(cfg, ms[n - 1], steps[n - 1], ms[n], id);
    }
  }

  lemma NextKeepsBlocked(cfg: Config, m: Memory, step: Step, m': Memory, id: string)
    requires Next(cfg, m, step, m') && Blocked(m.lineage, id)
    requires step.Process? ==> Undisturbed(step.env, m, id)
    ensures Blocked(m'.lineage, id) && (step.Process? ==> id !in step.deletes)
  {
    hide Undisturbed;
    hide Cycle;
    if step.Process? {
      CycleKeepsBlocked(cfg, step.env, m, m', step.deletes, id);
    }
  }

  /** A buffered event was reported by an earlier update of the run. */
  ghost predicate Reported(steps: seq<Step>, k: nat, e: Event) {
    exists j | 0 <= j < k && j < |steps| :: steps[j] == Updated(e.0, e.1)
  }

  lemma CycleInventsNothing(cfg: Config, env: Env, m: Memory, m': Memory, deletes: seq<string>, e: Event)
    requires Cycle(cfg, env, m, m', deletes) && e in m'.buffers.events
    ensures e in m.buffers.events
  {
    hide Selected;
    hide Retains;
  }

  lemma {:induction false} BufferedWasReported(cfg: Config, ms: seq<Memory>, steps: seq<Step>, k: nat, e: Event)
    requires Run(cfg, ms, steps) && ms[0].buffers.events == [] && k <= |steps| && e in ms[k].buffers.events
    ensures Reported(steps, k, e)
  {
    hide Cycle;
    if k > 0 {
      var step := steps[k - 1];
      assert Next(cfg, ms[k - 1], step, ms[k]);
      if step == Updated(e.0, e.1) {
        assert steps[k - 1] == Updated(e.0, e.1);
      } else {
        if step.Process? {
          CycleInventsNothing(cfg, step.env, ms[k - 1], ms[k], step.deletes, e);
        }
        BufferedWasReported(cfg, ms, steps, k - 1, e);
        var j :| 0 <= j < k - 1 && steps[j] == Updated(e.0, e.1);
        assert steps[j] == Updated(e.0, e.1);
      }
    }
  }

  /** From startup on, neither the initial seeding nor a new pattern ever deletes: behind every remote delete is an
      earlier update of that very file whose move to the current state is a completion. */
  lemma DeletesComeFromUpdates(cfg: Config, ms: seq<Memory>, steps: seq<Step>, k: nat, id: string)
    requires Run(cfg, ms, steps) && ms[0].buffers.events == []
    requires k < |steps| && steps[k].Process? && id in steps[k].deletes
    ensures id in ById(steps[k].env.roots)
    ensures exists j, before, after | 0 <= j < k ::
              && steps[j] == Updated(before, after) && after.id == id
              && var f := ById(steps[k].env.roots)[id];
              Finished(before.state, f)
  {
    hide Cycle;
    hide ById;
    hide Finished;
    var env := steps[k].env;
    assert Next(cfg, ms[k], steps[k], ms[k + 1]);
    DeletesAreCompletions(cfg, env, ms[k], ms[k + 1], steps[k].deletes, id);
    var f := ById(env.roots)[id];
    var e :| e in ms[k].buffers.events && e.1.id == id && Finished(e.0.state, f);
    BufferedWasReported(cfg, ms, steps, k, e);
    var j :| 0 <= j < k && steps[j] == Updated(e.0, e.1);
  }

  // ---- what becomes of a completion seen too early --------------------------------------------------

  /** A completion seen while its pair is unreconciled leaves its id deferred and its event buffered. */
  lemma EarlyCompletionIsKept(cfg: Config, env: Env, m: Memory, m': Memory, deletes: seq<string>, e: Event)
    requires Cycle(cfg, env, m, m', deletes) && env.fault == NoFault && cfg.enabled && cfg.autoDelete
    requires e in m.buffers.events && Unreconciled(env, ById(env.roots), e.1.id) && !Ready(env, e.1)
    ensures e.1.id in m'.lineage.deferred && e in m'.buffers.events && e.1.id !in deletes
  {
    hide Filtered;
    hide Selects;
    var id := e.1.id;
    var l := Without(m.lineage, m.buffers.removed);
    var b := m.buffers.(removed := {});
    assert !Idle(env, b);
    var l' :| Selected(cfg, env, l, b.news, b.events, l', deletes) && m' == Settled(cfg, env, l', b);
    FilteredAt(cfg, env, Announce(env, ById(env.roots), b.news, l), b.events, l', deletes, id);
    NoneSelected(cfg, env, ById(env.roots), Announce(env, ById(env.roots), b.news, l), b.events, id);
  }

  lemma NoneSelected(cfg: Config, env: Env, current: map<string, File>, l: Lineage, events: seq<Event>, id: string)
    requires Unreconciled(env, current, id)
    ensures !Selects(cfg, env, current, l, events, id)
  {
  }

  /** Every event about the id is this one. */
  ghost predicate OnlyEvent(events: seq<Event>, id: string, e: Event) {
    e in events && e.1.id == id && forall x | x in events && x.1.id == id :: x == e
  }

  /** A deferred id whose only buffered event is e is deleted by a faultless cycle exactly when e is a completion of
      the current file and itself proves a transfer. */
  lemma DeferredDeleteIff(cfg: Config, env: Env, m: Memory, m': Memory, deletes: seq<string>, id: string, e: Event)
    requires Cycle(cfg, env, m, m', deletes) && env.fault == NoFault && cfg.enabled && cfg.autoDelete
    requires id in m.lineage.deferred && id !in m.buffers.removed && OnlyEvent(m.buffers.events, id, e)
    ensures id in deletes <==> Completes(cfg, env, ById(env.roots), id, e) && Evidence(env, ById(env.roots), id, e)
  {
    hide Cycle;
    hide ById;
    hide Ready;
    hide Transition;
    BlockedDeleteIff(cfg, env, m, m', deletes, id);
    var current, events := ById(env.roots), m.buffers.events;
    var i :| 0 <= i < |events| && events[i] == e;
    if Evidence(env, current, id, e) {
      assert Evidence(env, current, id, events[..i + 1][i]);
    }
    forall j | 0 <= j < |events| && Completes(cfg, env, current, id, events[j]) &&
      Proven(env, current, id, events[..j + 1])
      ensures events[j] == e && Evidence(env, current, id, e)
    {
      assert events[j] in events;
      var k :| 0 <= k <= j && Evidence(env, current, id, events[..j + 1][k]);
      assert events[k] in events;
    }
  }

  lemma CompletesHere(cfg: Config, env: Env, current: map<string, File>, id: string, e: Event)
    ensures Completes(cfg, env, current, id, e) ==> id in current
  {
  }

  /** Across cycles: a completion seen while unreconciled deletes its file in the next faultless cycle, with no new
      event about the file, exactly when it completes the file as it is then, reconciled, and its old state was a live
      transfer or this process published the file. */
  lemma EarlyCompletionDeletesIff(cfg: Config, env: Env, m: Memory, m1: Memory, deletes: seq<string>,
                                  news: seq<File>, others: seq<Event>, env': Env, m': Memory, deletes': seq<string>,
                                  e: Event)
    requires Cycle(cfg, env, m, m1, deletes) && env.fault == NoFault && cfg.enabled && cfg.autoDelete
    requires OnlyEvent(m.buffers.events, e.1.id, e)
    requires Unreconciled(env, ById(env.roots), e.1.id) && !Ready(env, e.1)
    requires forall x | x in others :: x.1.id != e.1.id
    requires var arrived := m1.(buffers := Buffers(m1.buffers.news + news, m1.buffers.events + others, {}));
             Cycle(cfg, env', arrived, m', deletes') && env'.fault == NoFault
    ensures e.1.id !in deletes
    ensures e.1.id in deletes' <==>
              && e.1.id in ById(env'.roots)
              && var f := ById(env'.roots)[e.1.id];
              && ProvesTransfer(env', f, e) && Finished(e.0.state, f)
              && env'.pairEnabled(f) && env'.eligible(f) && (cfg.patternsOnly ==> env'.matches(f))
  {
    hide Completes;
    hide Evidence;
    EarlyCompletionIsKept(cfg, env, m, m1, deletes, e);
    forall x | x in m1.buffers.events ensures x in m.buffers.events {
      CycleInventsNothing(cfg, env, m, m1, deletes, x);
    }
    hide Cycle;
    var arrived := m1.(buffers := Buffers(m1.buffers.news + news, m1.buffers.events + others, {}));
    DeferredDeleteIff(cfg, env', arrived, m', deletes', e.1.id, e);
    CompletesHere(cfg, env', ById(env'.roots), e.1.id, e);
    if e.1.id in ById(env'.roots) { FieldsDecide(cfg, env', ById(env'.roots), e.1.id, e); }
  }

  // ---- what the lineage does not promise ---------------------------------------------------------

  function Answers(roots: seq<File>, ready: bool): Env {
    Env(true, false, roots, (p: Option<string>) => ready, (f: File) => false, (f: File) => true, (f: File) => true,
        (f: File) => true,
        QueueLane((a: File, b: File) => false, (id: string) => false, (f: File) => false, {}), NoFault)
  }

  /** A completion seen while unreconciled is not dropped for good: the event stays buffered, and a live transfer in
      its old state deletes the file remotely once the pair has reconciled, with no new event at all. */
  lemma DeferredCompletionStillDeletes(id: string)
    ensures var cfg := Config(true, true, false);
            var before := File(id, None, Downloading, false, false, true);
            var after := before.(state := Downloaded);
            var buffers := Buffers([], [(before, after)], {});
            && Cycle(cfg, Answers([after], false), Memory(Lineage({}, {}), buffers),
                     Memory(Lineage({id}, {}), buffers), [])
            && Cycle(cfg, Answers([after], true), Memory(Lineage({id}, {}), buffers),
                     Memory(Lineage({}, {}), Buffers([], [], {})), [id])
  {
    var cfg := Config(true, true, false);
    var before := File(id, None, Downloading, false, false, true);
    var after := before.(state := Downloaded);
    AnswersCycle(cfg, before, after, false);
    AnswersCycle(cfg, before, after, true);
  }

  lemma AnswersMean(cfg: Config, before: File, after: File, ready: bool)
    requires cfg == Config(true, true, false)
    requires before == File(after.id, None, Downloading, false, false, true) && after == before.(state := Downloaded)
    ensures var env, current, e := Answers([after], ready), map[after.id := after], (before, after);
            && Unreconciled(env, current, after.id) == !ready
            && Evidence(env, current, after.id, e) == ready
            && Completes(cfg, env, current, after.id, e) == ready
            && Retains(cfg, env, current, e) == !ready
  {
  }

  lemma AnswersCycle(cfg: Config, before: File, after: File, ready: bool)
    requires cfg == Config(true, true, false)
    requires before == File(after.id, None, Downloading, false, false, true) && after == before.(state := Downloaded)
    ensures Cycle(cfg, Answers([after], ready),
                  Memory(Lineage(if ready then {after.id} else {}, {}), Buffers([], [(before, after)], {})),
                  Memory(Lineage(if ready then {} else {after.id}, {}),
                         Buffers([], if ready then [] else [(before, after)], {})),
                  if ready then [after.id] else [])
  {
    var e, env, l := (before, after), Answers([after], ready), Lineage(if ready then {after.id} else {}, {});
    var current := ById([after]);
    assert current == map[after.id := after];
    OneEventCycle(cfg, env, l, e);
    AnswersMean(cfg, before, after, ready);
    assert Judged(env, current, l, e) == Lineage(if ready then {} else {after.id}, {});
    assert Within(Judged(env, current, l, e), current.Keys) == Judged(env, current, l, e);
    assert Matched(cfg, env, current, l, e, []) == if ready then [after.id] else [];
  }

  /** A faultless cycle whose only input is one event. */
  lemma OneEventCycle(cfg: Config, env: Env, l: Lineage, e: Event)
    requires cfg.enabled && cfg.autoDelete && env.fault == NoFault
    ensures var current := ById(env.roots);
            Cycle(cfg, env, Memory(l, Buffers([], [e], {})),
                  Memory(Within(Judged(env, current, l, e), current.Keys),
                         Buffers([], if Retains(cfg, env, current, e) then [e] else [], {})),
                  Matched(cfg, env, current, l, e, []))
  {
    var current := ById(env.roots);
    var b := Buffers([], [e], {});
    FilteredNone(cfg, env, l);
    FilteredMore(cfg, env, l, [], e, l, []);
    assert [] + [e] == [e];
    assert Announce(env, current, [], l) == l;
    assert Without(l, {}) == l;
    var l', matched := Judged(env, current, l, e), Matched(cfg, env, current, l, e, []);
    assert Selected(cfg, env, l, [], [e], l', matched);
    KeepOne(e, x => Retains(cfg, env, current, x));
    assert Settled(cfg, env, l', b) ==
           Memory(Within(l', current.Keys), Buffers([], if Retains(cfg, env, current, e) then [e] else [], {}));
  }

  lemma KeepOne<T(!new)>(x: T, p: T -> bool)
    ensures Keep([x], p) == if p(x) then [x] else []
  {
    assert [x][..0] == [];
  }
}
