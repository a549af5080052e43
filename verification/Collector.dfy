/**
 The collector around the retained window: recording with coalescing, byte accounting, eviction to
 a budget, policy changes and clearing (BreadcrumbTraceCollector.__record_entry, __evict_to_budget,
 __rebuild_retention_indexes_locked and clear in src/python/common/breadcrumb_trace.py). All of it
 runs under the collector's lock, so each method is one atomic step.
 */
module Collector {
  import opened Options
  import opened Retention
  import opened RetainedWindow

  datatype Outcome = Retained | Dropped

  class Collector {
    const window: Window
    const limits: Limits
    var policy: Policy
    var retainedBytes: int
    var version: nat
    var coalesce: map<string, nat>       // coalescing signature -> retained node
    var lastSignature: Option<string>

    /** Everything but the limits. */
    ghost predicate Consistent()
      reads this, window
    {
      && window.Valid(policy) && window.high <= version
      && retainedBytes == TotalSize(SizesOf(window.nodes))
      && CoalesceInv(window.nodes, coalesce)
      && (forall s | s in window.nodes :: s <= window.nodes[s].lastSeen <= version)
    }

    ghost predicate Valid()
      reads this, window
    {
      Consistent() && Fits(limits, SizesOf(window.nodes)) && lastSignature == LastContent(window.nodes)
    }

    function Signature(entry: Entry, key: Option<string>): string {
      if key.Some? then "coalesce:" + key.value else entry.content
    }

    /** The retained entry that absorbs a new one: the holder of its coalescing key, or else the newest entry when
        their signatures agree. */
    function Absorber(entry: Entry, key: Option<string>): Option<nat>
      reads this, window
    {
      var signature := Signature(entry, key);
      if window.nodes == map[] then None
      else if key.Some? && signature in coalesce then Some(coalesce[signature])
      else if lastSignature == Some(signature) then Some(Max(window.nodes.Keys)) else None
    }

    constructor (limits: Limits, policy: Policy)
      ensures Valid() && fresh(window) && window.nodes == map[]
      ensures this.limits == limits && this.policy == policy && version == 0
    {
      this.limits, this.policy := limits, policy;
      retainedBytes, version, coalesce, lastSignature := 0, 0, map[], None;
      window := new Window();
      new;
      SizesCount(window.nodes);
      assert SizesOf(window.nodes) == map[];
    }

    /** One iteration of `__evict_to_budget`: the rule's victim leaves the window and the accounts. */
    method EvictOne() returns (victim: Option<nat>)
      requires Consistent()
      modifies this`retainedBytes, this`coalesce, window`nodes, window`categories
      ensures Consistent()
      ensures if old(window.nodes) == map[] then victim == None && window.nodes == map[]
              else victim.Some? && RuleVictim(policy, EntriesOf(old(window.nodes)), victim.value) &&
                   window.nodes == old(window.nodes) - {victim.value}
    {
      hide IndexInv;
      hide FlagsInv;
      hide EligibleInv;
      victim := window.SelectVictim(policy);
      if victim == None {
        return;
      }
      var s := victim.value;
      var node := window.nodes[s];
      SizeAfterRemoval(window.nodes, s);
      CoalesceAfterRemoval(window.nodes, coalesce, s);
      window.Remove(policy, s);
      if node.signature.Some? && node.signature.value in coalesce && coalesce[node.signature.value] == s {
        coalesce := coalesce - {node.signature.value};
      }
      retainedBytes := retainedBytes - node.size;
    }

    /** `__evict_to_budget`: rule victims leave one by one until both limits hold. */
    method EvictToBudget() returns (evicted: bool)
      requires Consistent()
      modifies this`retainedBytes, this`coalesce, this`lastSignature, window`nodes, window`categories
      ensures Valid() && Remainder(old(window.nodes), window.nodes)
      ensures EvictsTo(policy, limits, EntriesOf(old(window.nodes)), SizesOf(old(window.nodes)),
                       EntriesOf(window.nodes))
      ensures evicted <==> window.nodes != old(window.nodes)
      ensures lastSignature == LastContent(window.nodes)
    {
      hide IndexInv;
      hide FlagsInv;
      hide EligibleInv;
      hide EvictsTo;
      hide OnTheWay;
      hide RuleVictim;
      hide CoalesceInv;
      hide TotalSize;
      evicted := false;
      OnTheWayHere(policy, limits, window.nodes);
      ghost var start := window.nodes;
      while window.nodes != map[] && (retainedBytes > limits.budget || !CountFits(limits, |window.nodes|))
        invariant Consistent() && Remainder(start, window.nodes)
        invariant evicted <==> window.nodes != start
        invariant OnTheWay(policy, limits, start, window.nodes)
        decreases |window.nodes|
      {
        ghost var now := window.nodes;
        var victim := EvictOne();
        if victim == None {
          break;
        }
        EvictionStep(policy, limits, start, now, victim.value);
        evicted := true;
      }
      EvictionEnd(policy, limits, start, window.nodes);
      retainedBytes := if retainedBytes > 0 then retainedBytes else 0;
      lastSignature := LastContent(window.nodes);
    }

    /** The coalescing branch of `__record_entry`: an earlier entry absorbs the new one and may change size. */
    method Coalesce(target: nat, size: nat) returns (outcome: Outcome)
      requires Valid() && target in window.nodes
      modifies this, window
      ensures Valid() && version == old(version) + 1 && policy == old(policy)
      ensures outcome == Retained <==> target in window.nodes
      ensures var grown := Touched(old(window.nodes), target, size, version);
              Remainder(grown, window.nodes) &&
              EvictsTo(policy, limits, EntriesOf(grown), SizesOf(grown), EntriesOf(window.nodes))
    {
      hide IndexInv;
      hide FlagsInv;
      hide EligibleInv;
      hide EvictsTo;
      hide TotalSize;
      hide LastContent;
      hide Fits;
      version := version + 1;
      SizeAfterTouch(window.nodes, target, size, version);
      retainedBytes := retainedBytes + size - window.nodes[target].size;
      window.Touch(policy, target, size, version);
      var evicted := EvictToBudget();
      if !evicted || exists s | s in window.nodes :: s <= version <= window.nodes[s].lastSeen {
        outcome := Retained;
      } else {
        outcome := Dropped;
      }
    }

    /** The appending branch of `__record_entry`. */
    method Admit(entry: Entry, key: Option<string>, signature: string, size: nat) returns (outcome: Outcome)
      requires Valid()
      modifies this, window
      ensures Valid() && version == old(version) + 1 && policy == old(policy)
      ensures outcome == Retained <==> version in window.nodes
      ensures size > limits.budget ==> window.nodes == old(window.nodes)
      ensures size <= limits.budget ==>
                EvictsTo(policy, limits, EntriesOf(old(window.nodes))[version := entry],
                         SizesOf(old(window.nodes))[version := size], EntriesOf(window.nodes))
      ensures Joined(old(window.nodes), window.nodes, version, entry, size)
    {
      hide IndexInv;
      hide FlagsInv;
      hide EligibleInv;
      hide EvictsTo;
      hide CoalesceInv;
      hide TotalSize;
      hide LastContent;
      hide Joined;
      hide Remainder;
      NodesBelow(window.nodes, window.high, window.categories);
      ghost var before := window.nodes;
      if size > limits.budget {
        version := version + 1;
        assert version !in window.nodes;
        NoneJoined(before, version, entry, size);
        return Dropped;
      }
      Enter(entry, key, signature, size);
      ghost var entered := window.nodes;
      var evicted := EvictToBudget();
      JoinedRemainder(before, entered, window.nodes, version, entry, size);
      if !evicted || (window.nodes != map[] && Max(window.nodes.Keys) == version) {
        outcome := Retained;
      } else {
        outcome := Dropped;
      }
    }

    /** The bookkeeping of the appending branch, before eviction. */
    method Enter(entry: Entry, key: Option<string>, signature: string, size: nat)
      requires Consistent()
      modifies this, window
      ensures Consistent() && version == old(version) + 1 && policy == old(policy)
      ensures window.nodes.Keys == old(window.nodes).Keys + {version} && version !in old(window.nodes)
      ensures Joined(old(window.nodes), window.nodes, version, entry, size)
      ensures EntriesOf(window.nodes) == EntriesOf(old(window.nodes))[version := entry]
      ensures SizesOf(window.nodes) == SizesOf(old(window.nodes))[version := size]
    {
      hide IndexInv;
      hide FlagsInv;
      hide EligibleInv;
      hide TotalSize;
      NodesBelow(window.nodes, window.high, window.categories);
      ghost var before := window.nodes;
      version := version + 1;
      window.Append(policy, version, entry, size, if key.Some? then Some(signature) else None);
      SizeAfterAppend(before, window.nodes, version, entry, size);
      retainedBytes := retainedBytes + size;
      lastSignature := Some(signature);
      if key.Some? {
        coalesce := coalesce[signature := version];
      }
    }

    /** `__record_entry` for an entry the policy allows. */
    method RecordEntry(entry: Entry, key: Option<string>, size: nat) returns (outcome: Outcome)
      requires Valid()
      modifies this, window
      // who absorbs it: without a key the newest entry, exactly if it says the same; with one the holder of the key
      ensures key == None ==> (old(Absorber(entry, key)).Some? <==>
                old(window.nodes) != map[] && old(window.nodes)[Max(old(window.nodes).Keys)].entry.content ==
                  entry.content)
      ensures key == None && old(Absorber(entry, key)).Some? ==>
                old(window.nodes) != map[] && old(Absorber(entry, key)).value == Max(old(window.nodes).Keys)
      ensures key.Some? && "coalesce:" + key.value in old(coalesce) ==>
                old(Absorber(entry, key)) == Some(old(coalesce)["coalesce:" + key.value])
      ensures Valid() && version == old(version) + 1 && policy == old(policy)
      ensures match old(Absorber(entry, key))
              case Some(target) =>
                target in old(window.nodes) && (outcome == Retained <==> target in window.nodes) &&
                var grown := Touched(old(window.nodes), target, size, version);
                Remainder(grown, window.nodes) &&
                EvictsTo(policy, limits, EntriesOf(grown), SizesOf(grown), EntriesOf(window.nodes))
              case None =>
                (outcome == Retained <==> version in window.nodes) &&
                Joined(old(window.nodes), window.nodes, version, entry, size) &&
                if size > limits.budget then window.nodes == old(window.nodes)
                else EvictsTo(policy, limits, EntriesOf(old(window.nodes))[version := entry],
                              SizesOf(old(window.nodes))[version := size], EntriesOf(window.nodes))
    {
      hide IndexInv;
      hide FlagsInv;
      hide EligibleInv;
      hide EvictsTo;
      hide TotalSize;
      var signature := Signature(entry, key);
      var coalesced := if key.Some? && signature in coalesce then Some(coalesce[signature]) else None;
      if window.nodes != map[] && (lastSignature == Some(signature) || coalesced.Some?) {
        var target := if coalesced.Some? then coalesced.value else Max(window.nodes.Keys);
        outcome := Coalesce(target, size);
      } else {
        outcome := Admit(entry, key, signature, size);
      }
    }

    /** A policy change: `__rebuild_retention_indexes_locked` under the new policy. */
    method ApplyPolicy(policy: Policy)
      requires Valid()
      modifies this`policy, window
      ensures Valid() && this.policy == policy
      ensures EntriesOf(window.nodes) == EntriesOf(old(window.nodes)) &&
              SizesOf(window.nodes) == SizesOf(old(window.nodes))
    {
      hide IndexInv;
      hide FlagsInv;
      hide EligibleInv;
      hide TotalSize;
      NodesBelow(window.nodes, window.high, window.categories);
      this.policy := policy;
      window.Rebuild(policy, window.nodes.Keys);
      assert EntriesOf(window.nodes) == EntriesOf(old(window.nodes));
      assert SizesOf(window.nodes) == SizesOf(old(window.nodes));
    }

    /** A filtered `clear`: the entries outside the filter stay, with their bytes counted anew. */
    method ClearExcept(kept: set<nat>)
      requires Valid() && kept <= window.nodes.Keys
      modifies this`retainedBytes, this`coalesce, this`lastSignature, window
      ensures Valid() && window.nodes.Keys == kept
      ensures forall s | s in kept :: SameRecord(window.nodes[s], old(window.nodes)[s])
    {
      hide IndexInv;
      hide FlagsInv;
      hide EligibleInv;
      hide TotalSize;
      NodesBelow(window.nodes, window.high, window.categories);
      var bytes := BytesOf(kept);
      FewerFit(limits, window.nodes, kept);
      ghost var before := window.nodes;
      window.Rebuild(policy, kept);
      assert SizesOf(window.nodes) == SizesIn(before, kept);
      retainedBytes, coalesce, lastSignature := bytes, map[], LastContent(window.nodes);
    }

    /** The byte count of the entries a filtered `clear` keeps. */
    method BytesOf(kept: set<nat>) returns (bytes: nat)
      requires kept <= window.nodes.Keys
      ensures bytes == TotalSize(SizesIn(window.nodes, kept))
    {
      bytes := 0;
      var todo := kept;
      ghost var counted: map<nat, nat> := map[];
      while todo != {}
        invariant todo <= kept && counted == SizesIn(window.nodes, kept - todo) && bytes == TotalSize(counted)
      {
        var s :| s in todo;
        TotalSizeAdd(counted, s, window.nodes[s].size);
        bytes, counted := bytes + window.nodes[s].size, counted[s := window.nodes[s].size];
        todo := todo - {s};
        assert counted == SizesIn(window.nodes, kept - todo);
      }
      assert kept - todo == kept;
    }
  }

  /** Every coalescing signature names a retained node that carries it. */
  ghost predicate CoalesceInv(nodes: Nodes, coalesce: map<string, nat>) {
    forall sig | sig in coalesce :: coalesce[sig] in nodes && nodes[coalesce[sig]].signature == Some(sig)
  }

  ghost predicate Remainder(before: Nodes, after: Nodes) {
    forall s | s in after :: s in before && after[s] == before[s]
  }

  /** Every survivor keeps its record, sizes included, and the new one, if retained, is as it was recorded. */
  ghost predicate Joined(before: Nodes, after: Nodes, version: nat, entry: Entry, size: nat) {
    && (forall s | s in after && s != version :: s in before && SameRecord(after[s], before[s]))
    && (version in after ==> after[version].entry == entry && after[version].size == size)
  }

  lemma NoneJoined(nodes: Nodes, version: nat, entry: Entry, size: nat)
    requires version !in nodes
    ensures Joined(nodes, nodes, version, entry, size)
  {
  }

  lemma JoinedRemainder(before: Nodes, entered: Nodes, after: Nodes, version: nat, entry: Entry, size: nat)
    requires Joined(before, entered, version, entry, size) && Remainder(entered, after)
    ensures Joined(before, after, version, entry, size)
  {
  }

  function LastContent(nodes: Nodes): Option<string> {
    if nodes == map[] then None else Some(nodes[Max(nodes.Keys)].entry.content)
  }

  lemma CoalesceAfterRemoval(nodes: Nodes, coalesce: map<string, nat>, s: nat)
    requires CoalesceInv(nodes, coalesce) && s in nodes
    ensures var sig := nodes[s].signature;
            CoalesceInv(nodes - {s},
                        if sig.Some? && sig.value in coalesce && coalesce[sig.value] == s then coalesce - {sig.value}
                          else coalesce)
  {
  }

  /** Whatever eviction reaches from `now`, it reaches from `start`. */
  ghost predicate OnTheWay(p: Policy, limits: Limits, start: Nodes, now: Nodes) {
    forall r | EvictsTo(p, limits, EntriesOf(now), SizesOf(now), r) ::
      EvictsTo(p, limits, EntriesOf(start), SizesOf(start), r)
  }

  lemma OnTheWayHere(p: Policy, limits: Limits, now: Nodes)
    ensures OnTheWay(p, limits, now, now)
  {
  }

  lemma SizesCount(nodes: Nodes)
    ensures |SizesOf(nodes)| == |nodes|
  {
    assert SizesOf(nodes).Keys == nodes.Keys;
    assert |SizesOf(nodes)| == |SizesOf(nodes).Keys| && |nodes| == |nodes.Keys|;
  }

  lemma SizeAfterRemoval(nodes: Nodes, s: nat)
    requires s in nodes
    ensures TotalSize(SizesOf(nodes)) == nodes[s].size + TotalSize(SizesOf(nodes - {s}))
  {
    assert SizesOf(nodes - {s}) == SizesOf(nodes) - {s};
    TotalSizeRemove(SizesOf(nodes), s);
  }

  lemma EvictionStep(p: Policy, limits: Limits, start: Nodes, now: Nodes, s: nat)
    requires OnTheWay(p, limits, start, now) && RuleVictim(p, EntriesOf(now), s)
    requires TotalSize(SizesOf(now)) > limits.budget || !CountFits(limits, |now|)
    ensures OnTheWay(p, limits, start, now - {s})
    ensures s in now && |now - {s}| < |now|
    ensures Remainder(start, now) ==> Remainder(start, now - {s}) && now - {s} != start
  {
    var es, sizes := EntriesOf(now), SizesOf(now);
    SizesCount(now);
    assert EntriesOf(now - {s}) == es - {s} && SizesOf(now - {s}) == sizes - {s};
    assert (now - {s}).Keys == now.Keys - {s} && |now - {s}| == |(now - {s}).Keys| && |now| == |now.Keys|;
    forall r | EvictsTo(p, limits, es - {s}, sizes - {s}, r)
      ensures EvictsTo(p, limits, EntriesOf(start), SizesOf(start), r) {
      assert EvictsTo(p, limits, es, sizes, r);
    }
  }

  lemma EvictionEnd(p: Policy, limits: Limits, start: Nodes, now: Nodes)
    requires OnTheWay(p, limits, start, now)
    requires now == map[] || (TotalSize(SizesOf(now)) <= limits.budget && CountFits(limits, |now|))
    ensures EvictsTo(p, limits, EntriesOf(start), SizesOf(start), EntriesOf(now))
    ensures Fits(limits, SizesOf(now))
  {
    SizesCount(now);
    if now == map[] { assert SizesOf(now) == map[]; }
    assert EvictsTo(p, limits, EntriesOf(now), SizesOf(now), EntriesOf(now));
  }

  lemma NodesBelow(nodes: Nodes, high: int, categories: Categories)
    requires IndexInv(nodes, high, categories)
    ensures high >= -1 && forall s | s in nodes :: s <= high
  {
  }

  function SizesIn(nodes: Nodes, kept: set<nat>): map<nat, nat> { map s | s in kept && s in nodes :: nodes[s].size }

  lemma SizeAfterTouch(nodes: Nodes, s: nat, size: nat, lastSeen: nat)
    requires s in nodes
    ensures TotalSize(SizesOf(Touched(nodes, s, size, lastSeen))) == TotalSize(SizesOf(nodes)) - nodes[s].size + size
  {
    var sizes := SizesOf(nodes);
    TotalSizeRemove(sizes, s);
    TotalSizeAdd(sizes - {s}, s, size);
    assert SizesOf(Touched(nodes, s, size, lastSeen)) == (sizes - {s})[s := size];
  }

  lemma SizeAfterAppend(before: Nodes, after: Nodes, s: nat, entry: Entry, size: nat)
    requires s !in before && after.Keys == before.Keys + {s}
    requires forall t | t in before :: after[t] == before[t].(eligible := after[t].eligible)
    requires after[s].size == size && after[s].entry == entry
    ensures TotalSize(SizesOf(after)) == TotalSize(SizesOf(before)) + size
    ensures SizesOf(after) == SizesOf(before)[s := size] && EntriesOf(after) == EntriesOf(before)[s := entry]
  {
    assert SizesOf(after) == SizesOf(before)[s := size];
    TotalSizeAdd(SizesOf(before), s, size);
  }

  /** A subset of entries that fit fits. */
  lemma {:induction false} FewerFit(limits: Limits, nodes: Nodes, kept: set<nat>)
    requires kept <= nodes.Keys && Fits(limits, SizesOf(nodes))
    ensures Fits(limits, SizesIn(nodes, kept))
    decreases |nodes|
  {
    if kept == nodes.Keys {
      assert SizesIn(nodes, kept) == SizesOf(nodes);
    } else {
      var s :| s in nodes && s !in kept;
      SizeAfterRemoval(nodes, s);
      SizesCount(nodes);
      SizesCount(nodes - {s});
      assert (nodes - {s}).Keys == nodes.Keys - {s} && |nodes - {s}| == |(nodes - {s}).Keys| && |nodes| == |nodes.Keys|;
      FewerFit(limits, nodes - {s}, kept);
      assert SizesIn(nodes - {s}, kept) == SizesIn(nodes, kept);
    }
  }
}
