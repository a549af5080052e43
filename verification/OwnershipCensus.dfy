/**
 The ownership census over a finite object graph that may be cyclic and shared: the structural
 breadth-first totals per owner and the detailed walk with one shared visited set
 (_add_structural_graph_totals and build_ownership_census in
 src/python/controller/ownership_census.py). Both use the open-addressing id set.
 */
module OwnershipCensus {
  import opened CompactIdSet

  /** Object ids with the ids that iterating them yields, in order; a container that changes size while it is walked
      yields a prefix of its children, since its iterator raises there. */
  type Graph = map<nat, seq<nat>>

  ghost predicate ClosedGraph(g: Graph) {
    forall n | n in g :: n != 0 && forall c | c in g[n] :: c in g
  }

  // ---- reachability ------------------------------------------------------------------

  ghost predicate Path(g: Graph, p: seq<nat>) {
    && p != [] && (forall i | 0 <= i < |p| :: p[i] in g)
    && forall i | 0 <= i < |p| - 1 :: p[i + 1] in g[p[i]]
  }

  ghost predicate Reaches(g: Graph, starts: seq<nat>, x: nat) {
    exists p :: Path(g, p) && p[0] in starts && p[|p| - 1] == x
  }

  ghost function Reachable(g: Graph, starts: seq<nat>): set<nat> { set x | x in g && Reaches(g, starts, x) }

  lemma ReachStart(g: Graph, starts: seq<nat>, x: nat)
    requires x in starts && x in g
    ensures x in Reachable(g, starts)
  {
    assert Path(g, [x]) && [x][0] in starts && [x][|[x]| - 1] == x;
  }

  lemma ReachChild(g: Graph, starts: seq<nat>, n: nat, c: nat)
    requires ClosedGraph(g) && n in Reachable(g, starts) && c in g[n]
    ensures c in Reachable(g, starts)
  {
    var p :| Path(g, p) && p[0] in starts && p[|p| - 1] == n;
    var q := p + [c];
    assert Path(g, q) && q[0] in starts && q[|q| - 1] == c;
  }

  /** A set that holds the starts and every child of its members holds everything reachable. */
  lemma {:induction false} PathInside(g: Graph, inside: set<nat>, p: seq<nat>)
    requires Path(g, p) && p[0] in inside
    requires forall n, c | n in inside && n in g && c in g[n] :: c in inside
    ensures p[|p| - 1] in inside
    decreases |p|
  {
    if |p| > 1 {
      assert p[1] in g[p[0]];
      assert Path(g, p[1..]);
      PathInside(g, inside, p[1..]);
    }
  }

  lemma ReachableInside(g: Graph, starts: seq<nat>, inside: set<nat>)
    requires forall s | s in starts :: s in inside
    requires forall n, c | n in inside && n in g && c in g[n] :: c in inside
    ensures Reachable(g, starts) <= inside
  {
    forall x | x in Reachable(g, starts) ensures x in inside {
      var p :| Path(g, p) && p[0] in starts && p[|p| - 1] == x;
      PathInside(g, inside, p);
    }
  }

  // ---- the visited set -------------------------------------------------------------------

  ghost predicate Holds(seen: IdSet, visited: set<nat>)
    reads seen, seen.slots
  {
    seen.Valid() && seen.Contents() == visited && seen.size == |visited|
  }

  method NewSeen() returns (seen: IdSet)
    ensures fresh(seen) && fresh(seen.slots) && Holds(seen, {})
  {
    seen := new IdSet();
  }

  method IsSeen(seen: IdSet, value: nat, ghost visited: set<nat>) returns (known: bool)
    requires Holds(seen, visited) && value != 0
    ensures known <==> value in visited
  {
    known := seen.Contains(value);
  }

  method AddSeen(seen: IdSet, value: nat, ghost visited: set<nat>)
    requires Holds(seen, visited) && value != 0
    modifies seen, seen.slots
    ensures Holds(seen, visited + {value}) && (fresh(seen.slots) || seen.slots == old(seen.slots))
  {
    var added := seen.AddIfAbsent(value);
  }

  // ---- structural totals ----------------------------------------------------------------

  datatype Totals = Totals(nodeCount: nat, truncated: bool)

  /** Everything still to be visited is in the queue. */
  ghost predicate Frontier(g: Graph, starts: seq<nat>, visited: set<nat>, pending: seq<nat>) {
    && (forall s | s in starts :: s in visited || s in pending)
    && (forall n, c | n in visited && n in g && c in g[n] :: c in visited || c in pending)
  }

  lemma VisitKeepsFrontier(g: Graph, starts: seq<nat>, visited: set<nat>, pending: seq<nat>)
    requires pending != [] && pending[0] in g && Frontier(g, starts, visited, pending)
    ensures pending[0] in visited ==> Frontier(g, starts, visited, pending[1..])
    ensures Frontier(g, starts, visited + {pending[0]}, pending[1..] + g[pending[0]])
  {
    assert forall x | x in pending :: x == pending[0] || x in pending[1..];
  }

  /** The node budget left to one owner. */
  function Budget(maxPerRoot: nat, maxNodes: nat, total: nat): nat {
    var left := if maxNodes > total then maxNodes - total else 0;
    if maxPerRoot < left then maxPerRoot else left
  }

  /** Within the budget and never more than there is; exactly all of it unless truncated; and truncated exactly when
      there is more than the budget or a reachable child list raises; if none does, the budget is then used up. */
  ghost predicate OwnerExact(g: Graph, starts: seq<nat>, mutating: set<nat>, r: Totals, budget: nat) {
    var all := |Reachable(g, starts)|;
    && r.nodeCount <= budget && r.nodeCount <= all
    && (!r.truncated ==> r.nodeCount == all)
    && (r.truncated <==> all > budget || !(mutating !! Reachable(g, starts)))
    && (mutating !! Reachable(g, starts) && r.truncated ==> r.nodeCount == budget)
  }

  /** One owner of `_add_structural_graph_totals`; iterating the children of a node in `mutating` raises. */
  method TraverseOwner(g: Graph, starts: seq<nat>, mutating: set<nat>, maxPerRoot: nat, maxNodes: nat, total: nat)
    returns (r: Totals)
    requires ClosedGraph(g) && forall s | s in starts :: s in g
    ensures OwnerExact(g, starts, mutating, r, Budget(maxPerRoot, maxNodes, total))
    ensures r.nodeCount <= Budget(maxPerRoot, maxNodes, total)
  {
    var seen := NewSeen();
    var pending := starts;
    var count := 0;
    ghost var all := Reachable(g, starts);
    assert all <= g.Keys;
    forall s | s in starts ensures s in all { ReachStart(g, starts, s); }
    ghost var visited: set<nat> := {};
    assert Frontier(g, starts, visited, pending);
    while pending != []
      invariant fresh(seen) && fresh(seen.slots) && Holds(seen, visited)
      invariant visited <= all && count == |visited| <= Budget(maxPerRoot, maxNodes, total) && visited !! mutating
      invariant forall x | x in pending :: x in all
      invariant Frontier(g, starts, visited, pending)
      invariant count <= |all|
      decreases |all| - count, |pending|
    {
      var value := pending[0];
      VisitKeepsFrontier(g, starts, visited, pending);
      NotZero(g, value);
      var known := IsSeen(seen, value, visited);
      if known {
        pending := pending[1..];
      } else {
        OneMore(visited, all, value);
        BudgetSpent(maxPerRoot, maxNodes, total, count);
        if count >= maxPerRoot || total + count >= maxNodes {
          return Totals(count, true);
        }
        AddSeen(seen, value, visited);
        count, visited := count + 1, visited + {value};
        if value in mutating {
          return Totals(count, true);
        }
        ReachChildren(g, starts, value);
        pending := pending[1..] + g[value];
      }
    }
    FrontierEmpty(g, starts, visited);
    assert visited == all;
    r := Totals(count, false);
  }

  lemma NotZero(g: Graph, n: nat)
    requires ClosedGraph(g) && n in g
    ensures n != 0
  {
  }

  lemma BudgetSpent(maxPerRoot: nat, maxNodes: nat, total: nat, count: nat)
    ensures (count >= maxPerRoot || total + count >= maxNodes) <==> count >= Budget(maxPerRoot, maxNodes, total)
  {
  }

  lemma ReachChildren(g: Graph, starts: seq<nat>, n: nat)
    requires ClosedGraph(g) && n in Reachable(g, starts)
    ensures forall c | c in g[n] :: c in Reachable(g, starts)
  {
    forall c | c in g[n] ensures c in Reachable(g, starts) { ReachChild(g, starts, n, c); }
  }

  lemma FrontierEmpty(g: Graph, starts: seq<nat>, visited: set<nat>)
    requires Frontier(g, starts, visited, [])
    ensures Reachable(g, starts) <= visited
  {
    ReachableInside(g, starts, visited);
  }

  lemma OneMore(visited: set<nat>, all: set<nat>, value: nat)
    requires visited <= all && value in all && value !in visited
    ensures |visited + {value}| == |visited| + 1 <= |all| && visited + {value} <= all
  {
    assert |all| == |visited + {value}| + |all - (visited + {value})|;
  }

  datatype Owner = Owner(name: string, starts: seq<nat>)

  function CountSum(totals: seq<Totals>): nat {
    if totals == [] then 0 else CountSum(totals[..|totals| - 1]) + totals[|totals| - 1].nodeCount
  }

  /** `_add_structural_graph_totals`: independent, exactly de-duplicated totals for every owner within both bounds. */
  method StructuralTotals(g: Graph, owners: seq<Owner>, mutating: set<nat>, maxPerRoot: nat, maxNodes: nat)
    returns (totals: seq<Totals>, total: nat, truncated: bool)
    requires ClosedGraph(g) && forall o | o in owners :: forall s | s in o.starts :: s in g
    ensures |totals| == |owners| && total == CountSum(totals) <= maxNodes
    ensures OwnersExact(g, owners, mutating, maxPerRoot, maxNodes, totals)
    ensures truncated <==> exists i | 0 <= i < |totals| :: totals[i].truncated
  {
    hide OwnerExact;
    hide OwnersExact;
    hide CountSum;
    totals, total, truncated := [], 0, false;
    NoOwners(g, owners, mutating, maxPerRoot, maxNodes);
    for i := 0 to |owners|
      invariant |totals| == i && total == CountSum(totals) <= maxNodes
      invariant OwnersExact(g, owners[..i], mutating, maxPerRoot, maxNodes, totals)
      invariant truncated <==> exists j | 0 <= j < |totals| :: totals[j].truncated
    {
      var r := TraverseOwner(g, owners[i].starts, mutating, maxPerRoot, maxNodes, total);
      assert owners[..i + 1] == owners[..i] + [owners[i]];
      OwnersNext(g, owners[..i], mutating, maxPerRoot, maxNodes, totals, owners[i], r);
      assert (totals + [r])[i] == r && forall j | 0 <= j < i :: (totals + [r])[j] == totals[j];
      totals, total, truncated := totals + [r], total + r.nodeCount, truncated || r.truncated;
    }
    assert owners[..|owners|] == owners;
  }

  /** Every owner's totals are exact for the budget that the owners before it left. */
  ghost predicate OwnersExact(g: Graph, owners: seq<Owner>, mutating: set<nat>, maxPerRoot: nat, maxNodes: nat,
                              totals: seq<Totals>) {
    |totals| == |owners| &&
    forall i | 0 <= i < |owners| ::
      OwnerExact(g, owners[i].starts, mutating, totals[i], Budget(maxPerRoot, maxNodes, CountSum(totals[..i])))
  }

  lemma NoOwners(g: Graph, owners: seq<Owner>, mutating: set<nat>, maxPerRoot: nat, maxNodes: nat)
    ensures OwnersExact(g, owners[..0], mutating, maxPerRoot, maxNodes, []) && CountSum([]) == 0
  {
  }

  lemma OwnersNext(g: Graph, owners: seq<Owner>, mutating: set<nat>, maxPerRoot: nat, maxNodes: nat,
                   totals: seq<Totals>,
                   owner: Owner, r: Totals)
    requires OwnersExact(g, owners, mutating, maxPerRoot, maxNodes, totals)
    requires OwnerExact(g, owner.starts, mutating, r, Budget(maxPerRoot, maxNodes, CountSum(totals)))
    ensures OwnersExact(g, owners + [owner], mutating, maxPerRoot, maxNodes, totals + [r])
    ensures CountSum(totals + [r]) == CountSum(totals) + r.nodeCount
  {
    hide OwnerExact;
    hide Budget;
    var more := totals + [r];
    assert more[..|totals|] == totals;
    forall i | 0 <= i < |owners| ensures more[..i] == totals[..i] && more[i] == totals[i] {
    }
  }

  // ---- detailed walk -----------------------------------------------------------------------

  ghost function Sum(m: map<string, nat>): nat
    decreases |m|
  {
    if m == map[] then 0
    else
      var k :| k in m;
      m[k] + Sum(m - {k})
  }

  lemma {:induction false} SumRemove(m: map<string, nat>, k: string)
    requires k in m
    ensures Sum(m) == m[k] + Sum(m - {k})
    decreases |m|
  {
    var j :| j in m && Sum(m) == m[j] + Sum(m - {j});
    if j != k {
      SumRemove(m - {j}, k);
      SumRemove(m - {k}, j);
      assert m - {j} - {k} == m - {k} - {j};
    }
  }

  lemma SumIncrement(m: map<string, nat>, k: string)
    requires k in m
    ensures Sum(m[k := m[k] + 1]) == Sum(m) + 1
  {
    SumRemove(m, k);
    SumRemove(m[k := m[k] + 1], k);
    assert m[k := m[k] + 1] - {k} == m - {k};
  }

  /** Every node of `nodes` has all its children in `visited`. */
  ghost predicate ClosedInto(g: Graph, nodes: set<nat>, visited: set<nat>) {
    forall n, c | n in nodes && n in g && c in g[n] :: c in visited
  }

  datatype Root = Root(name: string, container: nat, values: seq<nat>)  // container 0: none

  function Containers(roots: seq<Root>): set<nat> { set r | r in roots && r.container != 0 :: r.container }

  function AllValues(roots: seq<Root>): seq<nat> {
    if roots == [] then [] else AllValues(roots[..|roots| - 1]) + roots[|roots| - 1].values
  }

  lemma {:induction false} ValuesOf(roots: seq<Root>)
    ensures forall r | r in roots :: forall v | v in r.values :: v in AllValues(roots)
    ensures forall v | v in AllValues(roots) :: exists r :: r in roots && v in r.values
  {
    if roots != [] {
      var before, last := roots[..|roots| - 1], roots[|roots| - 1];
      ValuesOf(before);
      assert forall r | r in roots :: r in before || r == last;
    }
  }

  /** All that a census can count: the containers and whatever the values reach. */
  ghost function Countable(g: Graph, roots: seq<Root>): set<nat> { Containers(roots) + Reachable(g, AllValues(roots)) }

  /** Only this owner is charged, for exactly what was visited between the two counts. */
  ghost predicate Charged(before: map<string, nat>, after: map<string, nat>, owner: string, was: nat, now: nat) {
    && owner in before && after.Keys == before.Keys && after[owner] + was == before[owner] + now
    && (forall k | k in before && k != owner :: after[k] == before[k])
  }

  predicate DistinctNames(roots: seq<Root>) { forall i, j | 0 <= i < j < |roots| :: roots[i].name != roots[j].name }

  /** Each container's own children are among its root's values, as a snapshot of a container makes them. */
  ghost predicate Snapshotted(g: Graph, roots: seq<Root>) {
    forall r, c | r in roots && r.container in g && c in g[r.container] :: c in r.values
  }

  class Census {
    const seen: IdSet
    const maxObjects: nat
    var counts: map<string, nat>
    var truncated: bool
    ghost var visited: set<nat>

    /** The owners' object counts add up to the number of visited objects. */
    ghost predicate Valid()
      reads this, seen, seen.slots
    {
      Holds(seen, visited) && Sum(counts) == |visited| && |visited| <= maxObjects
    }

    /** Only objects of `bound` are visited, and the cap truncates only if there are more of them. */
    ghost predicate Within(bound: set<nat>)
      reads this
    {
      visited <= bound && (truncated ==> |bound| > maxObjects)
    }

    constructor (maxObjects: nat)
      ensures Valid() && fresh(seen) && fresh(seen.slots) && this.maxObjects == maxObjects
      ensures counts == map[] && !truncated && visited == {}
    {
      this.maxObjects, counts, truncated, visited := maxObjects, map[], false, {};
      var empty := NewSeen();
      seen := empty;
    }

    /** Count a new object for its owner, or give up at the cap. */
    method Add(value: nat, owner: string, ghost bound: set<nat>) returns (added: bool)
      requires Valid() && value != 0 && owner in counts && Within(bound) && value in bound
      modifies this, seen, seen.slots
      ensures Valid() && Within(bound) && (fresh(seen.slots) || seen.slots == old(seen.slots))
      ensures counts.Keys == old(counts).Keys
      ensures added ==> value !in old(visited) && visited == old(visited) + {value} && truncated == old(truncated)
      ensures added ==> counts == old(counts)[owner := old(counts)[owner] + 1]
      ensures !added ==> visited == old(visited) && counts == old(counts)
      ensures !added ==> truncated == (old(truncated) || value !in visited)
    {
      hide Holds;
      hide Sum;
      var known := IsSeen(seen, value, visited);
      if known {
        return false;
      }
      SeenSize(seen, visited);
      if seen.size >= maxObjects {
        OneMore(visited, bound, value);
        truncated := true;
        return false;
      }
      AddSeen(seen, value, visited);
      visited := visited + {value};
      SumIncrement(counts, owner);
      counts := counts[owner := counts[owner] + 1];
      added := true;
    }

    /** `walk`: depth first from one value, everything new counted for one owner and reachable from it. */
    method Walk(g: Graph, value: nat, owner: string, ghost all: set<nat>, ghost bound: set<nat>)
      requires Valid() && ClosedGraph(g) && value in g && owner in counts
      requires value in all && ClosedInto(g, all, all) && all <= bound && Within(bound)
      modifies this, seen, seen.slots
      ensures Valid() && Within(bound) && (fresh(seen.slots) || seen.slots == old(seen.slots))
      ensures Charged(old(counts), counts, owner, |old(visited)|, |visited|) && (old(truncated) ==> truncated)
      ensures old(visited) <= visited <= old(visited) + all
      ensures !truncated ==> value in visited && ClosedInto(g, visited - old(visited), visited)
      decreases g.Keys - visited
    {
      hide Holds;
      hide Sum;
      NotZero(g, value);
      var added := Add(value, owner, bound);
      if !added {
        return;
      }
      var children := g[value];
      for i := 0 to |children|
        invariant Valid() && Within(bound) && (fresh(seen.slots) || seen.slots == old(seen.slots))
        invariant Charged(old(counts), counts, owner, |old(visited)|, |visited|) && (old(truncated) ==> truncated)
        invariant old(visited) + {value} <= visited <= old(visited) + all
        invariant !truncated ==> ClosedInto(g, visited - old(visited) - {value}, visited)
        invariant !truncated ==> forall j | 0 <= j < i :: children[j] in visited
      {
        ghost var before := visited;
        assert children[i] in g by { ChildInGraph(g, value, children[i]); }
        Walk(g, children[i], owner, all, bound);
      }
    }

    method WalkAll(g: Graph, values: seq<nat>, owner: string, ghost all: set<nat>, ghost bound: set<nat>)
      requires Valid() && ClosedGraph(g) && owner in counts && forall v | v in values :: v in g && v in all
      requires ClosedInto(g, all, all) && all <= bound && Within(bound)
      modifies this, seen, seen.slots
      ensures Valid() && Within(bound) && (fresh(seen.slots) || seen.slots == old(seen.slots))
      ensures Charged(old(counts), counts, owner, |old(visited)|, |visited|) && (old(truncated) ==> truncated)
      ensures old(visited) <= visited <= old(visited) + all
      ensures !truncated ==> ClosedInto(g, visited - old(visited), visited) && forall v | v in values :: v in visited
    {
      hide Holds;
      hide Sum;
      hide ClosedGraph;
      for i := 0 to |values|
        invariant Valid() && Within(bound) && (fresh(seen.slots) || seen.slots == old(seen.slots))
        invariant Charged(old(counts), counts, owner, |old(visited)|, |visited|) && (old(truncated) ==> truncated)
        invariant old(visited) <= visited <= old(visited) + all
        invariant !truncated ==> ClosedInto(g, visited - old(visited), visited)
        invariant !truncated ==> forall j | 0 <= j < i :: values[j] in visited
      {
        Walk(g, values[i], owner, all, bound);
      }
    }

    /** One zero count per root name. */
    method InitOwners(roots: seq<Root>)
      requires Valid() && counts == map[] && visited == {}
      modifies this`counts
      ensures Valid() && counts.Keys == (set r | r in roots :: r.name) && forall k | k in counts :: counts[k] == 0
    {
      hide Holds;
      for i := 0 to |roots|
        invariant Valid() && forall k | k in counts :: counts[k] == 0
        invariant counts.Keys == set r | r in roots[..i] :: r.name
      {
        assert roots[..i + 1] == roots[..i] + [roots[i]];
        SumZero(counts[roots[i].name := 0]);
        counts := counts[roots[i].name := 0];
      }
      assert roots[..|roots|] == roots;
    }

    /** The census loop over the roots: containers are counted without being walked. Only countable objects are
        visited; unless the cap truncates, all containers and values are, and everything but a container has all its
        children visited too; and the cap truncates only if there is more to count than it allows. With distinct
        labels and snapshots of containers, each owner is charged for exactly the objects that its root is the first
        to reach. */
    method Build(g: Graph, roots: seq<Root>)
      requires Valid() && ClosedGraph(g) && !truncated && counts == map[] && visited == {}
      requires forall r | r in roots :: forall v | v in r.values :: v in g
      modifies this, seen, seen.slots
      ensures Valid() && counts.Keys == (set r | r in roots :: r.name) && Within(Countable(g, roots))
      ensures !truncated ==> CensusComplete(g, roots, visited)
      ensures !truncated && Snapshotted(g, roots) ==> visited == Countable(g, roots)
      ensures !truncated && Snapshotted(g, roots) && DistinctNames(roots) ==>
                forall i | 0 <= i < |roots| :: roots[i].name in counts &&
                  counts[roots[i].name] == |Countable(g, roots[..i + 1]) - Countable(g, roots[..i])|
    {
      hide Holds;
      hide Sum;
      hide Reachable;
      hide Countable;
      hide ClosedInto;
      hide CensusComplete;
      hide OwnersExactUpTo;
      hide Charged;
      hide Snapshotted;
      hide DistinctNames;
      InitOwners(roots);
      ghost var bound := Countable(g, roots);
      CensusStart(g, roots);
      NothingYet(g, roots, counts);
      for i := 0 to |roots|
        invariant Valid() && Within(bound) && (fresh(seen.slots) || seen.slots == old(seen.slots))
        invariant counts.Keys == set r | r in roots :: r.name
        invariant !truncated ==> CensusComplete(g, roots[..i], visited)
        invariant !truncated && Snapshotted(g, roots) ==> OwnersExactUpTo(g, roots, i, visited, counts)
      {
        ghost var was, before := visited, counts;
        ghost var all := Reachable(g, AllValues(roots[..i + 1]));
        RootInside(g, roots, i);
        var go := CountRoot(g, roots, i, all, bound);
        if !go {
          break;
        }
        if !truncated && Snapshotted(g, roots) {
          OwnersNextRoot(g, roots, i, was, visited, before, counts);
        }
      }
      assert roots[..|roots|] == roots;
      if !truncated && Snapshotted(g, roots) {
        OwnersExactMeans(g, roots, visited, counts);
      }
    }

    /** One root; at the cap its container ends the census. */
    method CountRoot(g: Graph, roots: seq<Root>, i: nat, ghost all: set<nat>, ghost bound: set<nat>) returns (go: bool)
      requires Valid() && ClosedGraph(g) && i < |roots| && roots[i].name in counts
      requires forall v | v in roots[i].values :: v in g && v in all
      requires ClosedInto(g, all, all) && all <= bound && Within(bound)
      requires roots[i].container != 0 ==> roots[i].container in bound
      requires !truncated ==> CensusComplete(g, roots[..i], visited)
      modifies this, seen, seen.slots
      ensures Valid() && Within(bound) && (fresh(seen.slots) || seen.slots == old(seen.slots))
      ensures Charged(old(counts), counts, roots[i].name, |old(visited)|, |visited|) && counts.Keys == old(counts).Keys
      ensures old(truncated) || !go ==> truncated
      ensures visited <= old(visited) + all + (if roots[i].container != 0 then {roots[i].container} else {})
      ensures !truncated ==> CensusComplete(g, roots[..i + 1], visited)
    {
      hide Holds;
      hide Sum;
      hide CensusComplete;
      ghost var before := visited;
      var root := roots[i];
      if root.container != 0 {
        var known := IsSeen(seen, root.container, visited);
        if !known {
          var added := Add(root.container, root.name, bound);
          if !added {
            return false;
          }
        }
      }
      ghost var middle := visited;
      WalkAll(g, root.values, root.name, all, bound);
      go := true;
      if !truncated {
        CompleteNext(g, roots, i, before, middle, visited);
      }
    }
  }

  /** All containers and values are visited, and whatever follows from a visited object that is no container. */
  ghost predicate CensusComplete(g: Graph, roots: seq<Root>, visited: set<nat>) {
    && Containers(roots) <= visited
    && (forall r | r in roots :: forall v | v in r.values :: v in visited)
    && ClosedInto(g, visited - Containers(roots), visited)
  }

  lemma CompleteNext(g: Graph, roots: seq<Root>, i: nat, before: set<nat>, middle: set<nat>, after: set<nat>)
    requires i < |roots| && CensusComplete(g, roots[..i], before)
    requires middle == before || (roots[i].container != 0 && middle == before + {roots[i].container})
    requires roots[i].container != 0 ==> roots[i].container in middle
    requires middle <= after && ClosedInto(g, after - middle, after) && forall v | v in roots[i].values :: v in after
    ensures CensusComplete(g, roots[..i + 1], after)
  {
    assert roots[..i + 1] == roots[..i] + [roots[i]];
  }

  /** Before the first root. */
  lemma CensusStart(g: Graph, roots: seq<Root>)
    requires ClosedGraph(g) && forall r | r in roots :: forall v | v in r.values :: v in g
    ensures var all := Reachable(g, AllValues(roots)); ClosedInto(g, all, all) && all <= Countable(g, roots)
    ensures CensusComplete(g, roots[..0], {})
  {
    var values := AllValues(roots);
    forall n, c | n in Reachable(g, values) && n in g && c in g[n] ensures c in Reachable(g, values) {
      ReachChild(g, values, n, c);
    }
  }

  lemma {:induction false} MoreStarts(g: Graph, few: seq<nat>, many: seq<nat>)
    requires forall s | s in few :: s in many
    ensures Reachable(g, few) <= Reachable(g, many)
  {
    forall x | x in Reachable(g, few) ensures x in Reachable(g, many) {
      var p :| Path(g, p) && p[0] in few && p[|p| - 1] == x;
      assert Path(g, p) && p[0] in many;
    }
  }

  lemma PrefixValues(roots: seq<Root>, i: nat)
    requires i <= |roots|
    ensures forall v | v in AllValues(roots[..i]) :: v in AllValues(roots)
  {
    ValuesOf(roots[..i]);
    ValuesOf(roots);
    forall v | v in AllValues(roots[..i]) ensures v in AllValues(roots) {
      var r :| r in roots[..i] && v in r.values;
      assert r in roots;
    }
  }

  /** More roots, more to count. */
  lemma CountableGrows(g: Graph, roots: seq<Root>, i: nat)
    requires i <= |roots|
    ensures Countable(g, roots[..i]) <= Countable(g, roots)
    ensures Reachable(g, AllValues(roots[..i])) <= Countable(g, roots)
  {
    PrefixValues(roots, i);
    MoreStarts(g, AllValues(roots[..i]), AllValues(roots));
    assert forall r | r in roots[..i] :: r in roots;
  }

  lemma RootInside(g: Graph, roots: seq<Root>, i: nat)
    requires ClosedGraph(g) && i < |roots| && forall r | r in roots :: forall v | v in r.values :: v in g
    ensures var all := Reachable(g, AllValues(roots[..i + 1]));
            && (forall v | v in roots[i].values :: v in g && v in all)
            && ClosedInto(g, all, all) && all <= Countable(g, roots)
    ensures roots[i].container != 0 ==> roots[i].container in Countable(g, roots)
  {
    var prefix := roots[..i + 1];
    ValuesOf(prefix);
    assert roots[i] in roots && roots[i] == prefix[i] && roots[i] in prefix;
    forall v | v in roots[i].values ensures v in Reachable(g, AllValues(prefix)) {
      ReachStart(g, AllValues(prefix), v);
    }
    assert forall r | r in prefix :: r in roots;
    CensusStart(g, prefix);
    CountableGrows(g, roots, i + 1);
  }

  /** After i roots: everything countable so far is visited, each of them is charged for what it was first to reach,
      and the others for nothing yet. */
  ghost predicate OwnersExactUpTo(g: Graph, roots: seq<Root>, i: nat, visited: set<nat>, counts: map<string, nat>)
    requires i <= |roots|
  {
    && visited == Countable(g, roots[..i])
    && (DistinctNames(roots) ==>
          && (forall j | 0 <= j < |roots| :: roots[j].name in counts)
          && (forall j | 0 <= j < i ::
                counts[roots[j].name] == |Countable(g, roots[..j + 1]) - Countable(g, roots[..j])|)
          && (forall j | i <= j < |roots| :: counts[roots[j].name] == 0))
  }

  lemma NothingYet(g: Graph, roots: seq<Root>, counts: map<string, nat>)
    requires counts.Keys == (set r | r in roots :: r.name) && forall k | k in counts :: counts[k] == 0
    ensures OwnersExactUpTo(g, roots, 0, {}, counts)
  {
    assert AllValues(roots[..0]) == [];
    forall x ensures x !in Reachable(g, []) {
    }
    forall j | 0 <= j < |roots| ensures roots[j].name in counts {
      assert roots[j] in roots;
    }
  }

  lemma OwnersNextRoot(g: Graph, roots: seq<Root>, i: nat, was: set<nat>, visited: set<nat>,
                       before: map<string, nat>, counts: map<string, nat>)
    requires i < |roots| && Snapshotted(g, roots) && OwnersExactUpTo(g, roots, i, was, before)
    requires CensusComplete(g, roots[..i + 1], visited) && Charged(before, counts, roots[i].name, |was|, |visited|)
    requires visited <= was + Reachable(g, AllValues(roots[..i + 1])) +
                        (if roots[i].container != 0 then {roots[i].container} else {})
    ensures OwnersExactUpTo(g, roots, i + 1, visited, counts)
  {
    hide *;
    ExactVisited(g, roots, i, was, before);
    NextVisited(g, roots, i, was, visited);
    NextCounts(g, roots, i, was, visited, before, counts);
  }

  lemma ExactVisited(g: Graph, roots: seq<Root>, i: nat, visited: set<nat>, counts: map<string, nat>)
    requires i <= |roots| && OwnersExactUpTo(g, roots, i, visited, counts)
    ensures visited == Countable(g, roots[..i])
  {
  }

  lemma NextVisited(g: Graph, roots: seq<Root>, i: nat, was: set<nat>, visited: set<nat>)
    requires i < |roots| && Snapshotted(g, roots) && was == Countable(g, roots[..i])
    requires CensusComplete(g, roots[..i + 1], visited)
    requires visited <= was + Reachable(g, AllValues(roots[..i + 1])) +
                        (if roots[i].container != 0 then {roots[i].container} else {})
    ensures was <= visited == Countable(g, roots[..i + 1])
  {
    hide CensusComplete;
    hide Reachable;
    hide AllValues;
    hide Snapshotted;
    var prefix := roots[..i + 1];
    assert prefix[..i] == roots[..i];
    CountableGrows(g, prefix, i);
    assert prefix[i] == roots[i] && roots[i] in prefix;
    assert visited <= Countable(g, prefix);
    SnapshotPrefix(g, roots, i + 1);
    CensusIsExact(g, prefix, visited);
  }

  lemma NextCounts(g: Graph, roots: seq<Root>, i: nat, was: set<nat>, visited: set<nat>,
                   before: map<string, nat>, counts: map<string, nat>)
    requires i < |roots| && OwnersExactUpTo(g, roots, i, was, before)
    requires was <= visited == Countable(g, roots[..i + 1]) && Charged(before, counts, roots[i].name, |was|, |visited|)
    ensures OwnersExactUpTo(g, roots, i + 1, visited, counts)
  {
    hide Countable;
    Difference(was, visited);
    if DistinctNames(roots) {
      forall j | 0 <= j < |roots| && j != i ensures roots[j].name != roots[i].name {
      }
    }
  }

  lemma Difference(a: set<nat>, b: set<nat>)
    requires a <= b
    ensures |b - a| == |b| - |a|
  {
    assert b == a + (b - a);
  }

  lemma SnapshotPrefix(g: Graph, roots: seq<Root>, i: nat)
    requires i <= |roots| && Snapshotted(g, roots)
    ensures forall n, c | n in Containers(roots[..i]) && n in g && c in g[n] :: c in AllValues(roots[..i])
  {
    ValuesOf(roots[..i]);
    assert forall r | r in roots[..i] :: r in roots;
  }

  lemma OwnersExactMeans(g: Graph, roots: seq<Root>, visited: set<nat>, counts: map<string, nat>)
    requires OwnersExactUpTo(g, roots, |roots|, visited, counts)
    ensures visited == Countable(g, roots)
    ensures DistinctNames(roots) ==> forall i | 0 <= i < |roots| ::
              roots[i].name in counts &&
              counts[roots[i].name] == |Countable(g, roots[..i + 1]) - Countable(g, roots[..i])|
  {
    assert roots[..|roots|] == roots;
  }

  /** The census is exact when a container's own children are among the values, as a snapshot of a container makes
      them: what is visited is everything countable. */
  lemma CensusIsExact(g: Graph, roots: seq<Root>, visited: set<nat>)
    requires CensusComplete(g, roots, visited) && visited <= Countable(g, roots)
    requires forall n, c | n in Containers(roots) && n in g && c in g[n] :: c in AllValues(roots)
    ensures visited == Countable(g, roots)
  {
    ValuesOf(roots);
    forall n, c | n in visited && n in g && c in g[n] ensures c in visited {
      if n in Containers(roots) {
        assert c in AllValues(roots);
        var r :| r in roots && c in r.values;
      }
    }
    ReachableInside(g, AllValues(roots), visited);
  }

  lemma SeenSize(seen: IdSet, visited: set<nat>)
    requires Holds(seen, visited)
    ensures seen.size == |visited|
  {
  }

  lemma ChildInGraph(g: Graph, n: nat, c: nat)
    requires ClosedGraph(g) && n in g && c in g[n]
    ensures c in g
  {
  }

  lemma {:induction false} SumZero(m: map<string, nat>)
    requires forall k | k in m :: m[k] == 0
    ensures Sum(m) == 0
    decreases |m|
  {
    if m != map[] {
      var k :| k in m && Sum(m) == m[k] + Sum(m - {k});
      SumZero(m - {k});
    }
  }
}
