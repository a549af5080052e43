/**
 The retained window: an ordered dictionary of entries with, per category, a count and a lazily
 cleaned heap of evictable entries and an ordered dictionary of its decisions (_RetainedWindow
 in src/python/common/breadcrumb_trace.py).

 Keys are versions and only grow, so insertion order is key order and an ordered dictionary is a
 map or a set of keys. A heap is its content: only its length and its smallest element are used.
 */
module RetainedWindow {
  import opened Options
  import opened Retention

  datatype Node = Node(
    entry: Entry, size: nat, lastSeen: nat, signature: Option<string>,
    base: bool, decision: bool, eligible: bool)

  type Nodes = map<nat, Node>

  datatype CategoryState = CategoryState(heap: set<nat>, count: nat, decisions: set<nat>)

  type Categories = map<string, CategoryState>

  function EntriesOf(nodes: Nodes): Entries { map s | s in nodes :: nodes[s].entry }

  function SizesOf(nodes: Nodes): map<nat, nat> { map s | s in nodes :: nodes[s].size }

  function CategoryAt(nodes: Nodes, s: nat): string
    requires s in nodes
  {
    CategoryOf(nodes[s].entry)
  }

  function Eligible(nodes: Nodes, c: string): set<nat> {
    set s | s in nodes && nodes[s].eligible && CategoryAt(nodes, s) == c
  }

  function Decisions(nodes: Nodes, c: string): set<nat> {
    set s | s in nodes && nodes[s].decision && CategoryAt(nodes, s) == c
  }

  // ---- smallest and largest keys ----------------------------------------------------

  ghost predicate Least(s: set<nat>, m: nat) { m in s && forall x | x in s :: m <= x }

  ghost predicate Greatest(s: set<nat>, m: nat) { m in s && forall x | x in s :: x <= m }

  lemma {:induction false} HasLeast(s: set<nat>) returns (m: nat)
    requires s != {}
    ensures Least(s, m)
  {
    var a :| a in s;
    if s == {a} {
      m := a;
    } else {
      var n := HasLeast(s - {a});
      assert forall x | x in s :: x == a || x in s - {a};
      m := if n <= a then n else a;
    }
  }

  lemma {:induction false} HasGreatest(s: set<nat>) returns (m: nat)
    requires s != {}
    ensures Greatest(s, m)
  {
    var a :| a in s;
    if s == {a} {
      m := a;
    } else {
      var n := HasGreatest(s - {a});
      assert forall x | x in s :: x == a || x in s - {a};
      m := if n >= a then n else a;
    }
  }

  function Min(s: set<nat>): (m: nat)
    requires s != {}
    ensures m in s && forall x | x in s :: m <= x
  {
    assert exists m :: m in s && forall x | x in s :: m <= x by { var m := HasLeast(s); assert Least(s, m); }
    var m :| m in s && forall x | x in s :: m <= x;
    m
  }

  function Max(s: set<nat>): (m: nat)
    requires s != {}
    ensures m in s && forall x | x in s :: x <= m
  {
    assert exists m :: m in s && forall x | x in s :: x <= m by { var m := HasGreatest(s); assert Greatest(s, m); }
    var m :| m in s && forall x | x in s :: x <= m;
    m
  }

  // ---- index invariant -----------------------------------------------------------------

  ghost predicate CategoryInv(nodes: Nodes, high: int, c: string, st: CategoryState) {
    && st.count == |Eligible(nodes, c)| && Eligible(nodes, c) <= st.heap
    && |st.heap| <= 2 * st.count + 34
    && (forall s | s in st.heap :: s <= high && (s in nodes ==> s in Eligible(nodes, c)))
    && st.decisions == Decisions(nodes, c)
  }

  ghost predicate IndexInv(nodes: Nodes, high: int, categories: Categories) {
    && high >= -1 && (forall s | s in nodes :: s <= high)
    && (forall c | c in categories :: CategoryInv(nodes, high, c, categories[c]))
    && (forall s | s in nodes && (nodes[s].eligible || nodes[s].decision) :: CategoryAt(nodes, s) in categories)
  }

  /** The derived flags agree with the policy. */
  ghost predicate FlagsInv(p: Policy, nodes: Nodes) {
    forall s | s in nodes ::
      nodes[s].base == BaseProtected(p, nodes[s].entry) && nodes[s].decision == IsDecision(p, nodes[s].entry)
  }

  /** An entry is eligible exactly when the rule leaves it unprotected. */
  ghost predicate EligibleInv(p: Policy, nodes: Nodes) {
    forall s | s in nodes :: nodes[s].eligible <==> !Protected(p, EntriesOf(nodes), s)
  }

  function Mark(nodes: Nodes, s: nat): Nodes
    requires s in nodes
  {
    nodes[s := nodes[s].(eligible := true)]
  }

  /** `_insert_eligible` on the node's category. */
  function Insert(st: CategoryState, s: nat): CategoryState {
    st.(count := st.count + 1, heap := st.heap + {s})
  }

  lemma InsertKeepsOther(nodes: Nodes, high: int, c: string, st: CategoryState, s: nat)
    requires CategoryInv(nodes, high, c, st) && s in nodes && CategoryAt(nodes, s) != c
    ensures CategoryInv(Mark(nodes, s), high, c, st)
  {
    assert Eligible(Mark(nodes, s), c) == Eligible(nodes, c);
    assert Decisions(Mark(nodes, s), c) == Decisions(nodes, c);
  }

  lemma InsertKeepsCategory(nodes: Nodes, high: int, st: CategoryState, s: nat)
    requires s in nodes && !nodes[s].eligible && s <= high
    requires CategoryInv(nodes, high, CategoryAt(nodes, s), st)
    ensures s !in st.heap && CategoryInv(Mark(nodes, s), high, CategoryAt(nodes, s), Insert(st, s))
  {
    var c := CategoryAt(nodes, s);
    assert Eligible(Mark(nodes, s), c) == Eligible(nodes, c) + {s};
    assert Decisions(Mark(nodes, s), c) == Decisions(nodes, c);
  }

  lemma InsertKeepsIndex(nodes: Nodes, high: int, categories: Categories, s: nat)
    requires IndexInv(nodes, high, categories)
    requires s in nodes && !nodes[s].eligible && CategoryAt(nodes, s) in categories
    ensures var c := CategoryAt(nodes, s);
            IndexInv(Mark(nodes, s), high, categories[c := Insert(categories[c], s)])
  {
    var c := CategoryAt(nodes, s);
    InsertKeepsCategory(nodes, high, categories[c], s);
    forall d | d in categories && d != c ensures CategoryInv(Mark(nodes, s), high, d, categories[d]) {
      InsertKeepsOther(nodes, high, d, categories[d], s);
    }
  }

  // ---- append ---------------------------------------------------------------------------

  lemma AddKeepsCategory(nodes: Nodes, high: int, c: string, st: CategoryState, s: nat, node: Node)
    requires CategoryInv(nodes, high, c, st) && s > high && s !in nodes && !node.eligible
    ensures var st' := if node.decision && CategoryOf(node.entry) == c then st.(decisions := st.decisions + {s})
            else st;
            CategoryInv(nodes[s := node], s, c, st')
  {
    assert Eligible(nodes[s := node], c) == Eligible(nodes, c);
    assert Decisions(nodes[s := node], c) ==
      if node.decision && CategoryOf(node.entry) == c then Decisions(nodes, c) + {s} else Decisions(nodes, c);
  }

  /** The categories dictionary once the new node's category exists and holds its decision, if it is one. */
  function Enrolled(categories: Categories, s: nat, node: Node): Categories {
    var c := CategoryOf(node.entry);
    var st := if c in categories then categories[c] else CategoryState({}, 0, {});
    categories[c := if node.decision then st.(decisions := st.decisions + {s}) else st]
  }

  lemma AddKeepsIndex(nodes: Nodes, high: int, categories: Categories, s: nat, node: Node)
    requires IndexInv(nodes, high, categories) && s > high && !node.eligible
    ensures IndexInv(nodes[s := node], s, Enrolled(categories, s, node))
  {
    var nodes', categories' := nodes[s := node], Enrolled(categories, s, node);
    var c := CategoryOf(node.entry);
    if c !in categories {
      assert Eligible(nodes, c) == {} && Decisions(nodes, c) == {};
      assert CategoryInv(nodes, high, c, CategoryState({}, 0, {}));
    }
    forall d | d in categories' ensures CategoryInv(nodes', s, d, categories'[d]) {
      AddKeepsCategory(nodes, high, d, if d in categories then categories[d] else CategoryState({}, 0, {}), s, node);
    }
  }

  /** A newer decision takes over as the latest of its category; nothing else changes protection. */
  lemma AppendProtection(p: Policy, es: Entries, s: nat, e: Entry, t: nat)
    requires t in es && forall u | u in es :: u < s
    ensures Protected(p, es[s := e], t) ==
            (BaseProtected(p, es[t]) ||
             (LatestDecision(p, es, t) && !(IsDecision(p, e) && CategoryOf(e) == CategoryOf(es[t]))))
  {
    var es' := es[s := e];
    assert forall u | u in es :: SameCategory(es', t, u) == SameCategory(es, t, u);
    if IsDecision(p, e) && CategoryOf(e) == CategoryOf(es[t]) {
      assert SameCategory(es', t, s);
    }
  }

  class Window {
    var nodes: Nodes
    var categories: Categories
    ghost var high: int  // the newest version ever appended, -1 before the first

    ghost predicate Valid(p: Policy)
      reads this
    {
      IndexInv(nodes, high, categories) && FlagsInv(p, nodes) && EligibleInv(p, nodes)
    }

    constructor ()
      ensures nodes == map[] && categories == map[] && high == -1 && forall p :: Valid(p)
    {
      nodes, categories, high := map[], map[], -1;
    }

    /** `_insert_eligible`. */
    method InsertEligible(s: nat)
      requires IndexInv(nodes, high, categories) && s in nodes && CategoryAt(nodes, s) in categories
      modifies this`nodes, this`categories
      ensures IndexInv(nodes, high, categories) && nodes == Mark(old(nodes), s)
      ensures categories.Keys == old(categories).Keys
    {
      var c := CategoryAt(nodes, s);
      if !nodes[s].eligible {
        InsertKeepsIndex(nodes, high, categories, s);
        categories := categories[c := Insert(categories[c], s)];
        nodes := Mark(nodes, s);
      }
    }

    /** `append`: afterwards the window holds one more entry and the index still agrees with the rule. */
    method Append(p: Policy, s: nat, entry: Entry, size: nat, signature: Option<string>)
      requires Valid(p) && s > high
      modifies this
      ensures Valid(p) && high == s
      ensures nodes.Keys == old(nodes).Keys + {s}
      ensures forall t | t in old(nodes) :: nodes[t] == old(nodes)[t].(eligible := nodes[t].eligible)
      ensures nodes[s].entry == entry && nodes[s].size == size && nodes[s].lastSeen == s &&
              nodes[s].signature == signature
    {
      var node := Node(entry, size, s, signature, BaseProtected(p, entry), IsDecision(p, entry), false);
      assert forall t | t in nodes :: t < s;
      AppendKeepsEligible(p, nodes, s, node);
      AppendedFrame(nodes, s, node);
      AppendNode(s, node);
    }

    /** The body of `append` on a node whose flags are set. */
    method AppendNode(s: nat, node: Node)
      requires IndexInv(nodes, high, categories) && s > high && !node.eligible
      modifies this
      ensures IndexInv(nodes, high, categories) && high == s && nodes == Appended(old(nodes), s, node)
    {
      var c := CategoryOf(node.entry);
      AddKeepsIndex(nodes, high, categories, s, node);
      var earlier := if c in categories then categories[c].decisions else {};
      assert earlier == Decisions(nodes, c) by {
        if c in categories { assert CategoryInv(nodes, high, c, categories[c]); }
      }
      nodes, categories, high := nodes[s := node], Enrolled(categories, s, node), s;
      if node.decision {
        if earlier != {} {
          var previous := Max(earlier);
          if !nodes[previous].base {
            InsertEligible(previous);
          }
        }
      } else if !node.base {
        InsertEligible(s);
      }
    }

    /** `_oldest_eligible`: drop stale heads, then the smallest live sequence. */
    method OldestEligible(c: string) returns (oldest: Option<nat>)
      requires IndexInv(nodes, high, categories)
      modifies this`categories
      ensures IndexInv(nodes, high, categories) && categories.Keys == old(categories).Keys
      ensures forall d | d in categories :: categories[d].count == old(categories)[d].count
      ensures if Eligible(nodes, c) == {} then oldest == None else oldest == Some(Min(Eligible(nodes, c)))
    {
      if c !in categories {
        return None;
      }
      while categories[c].heap != {}
        invariant IndexInv(nodes, high, categories) && categories.Keys == old(categories).Keys
        invariant forall d | d in categories :: categories[d].count == old(categories)[d].count
        decreases |categories[c].heap|
      {
        var head := Min(categories[c].heap);
        assert CategoryInv(nodes, high, c, categories[c]);
        if head in nodes && nodes[head].eligible {
          assert head == Min(Eligible(nodes, c));
          return Some(head);
        }
        categories := categories[c := categories[c].(heap := categories[c].heap - {head})];
      }
      assert CategoryInv(nodes, high, c, categories[c]);
      return None;
    }

    /** The loop of the eligible branch of `select_victim`. */
    method BestEligible() returns (count: nat, victim: Option<nat>)
      requires IndexInv(nodes, high, categories)
      modifies this`categories
      ensures IndexInv(nodes, high, categories)
      ensures forall c | c in categories.Keys :: Beaten(Eligible(nodes, c), count, victim)
      ensures victim.Some? ==> Champion(nodes, count, victim.value)
    {
      hide IndexInv;
      hide Champion;
      var todo := categories.Keys;
      count, victim := 0, None;
      while todo != {}
        invariant IndexInv(nodes, high, categories) && todo <= categories.Keys
        invariant forall c | c in categories.Keys - todo :: Beaten(Eligible(nodes, c), count, victim)
        invariant if victim.Some? then Champion(nodes, count, victim.value) else count == 0
      {
        var c :| c in todo;
        ghost var seen := categories.Keys - todo;
        todo := todo - {c};
        var n := categories[c].count;
        IndexCount(nodes, high, categories, c);
        if n != 0 {
          var oldest := OldestEligible(c);
          if oldest.Some? {
            ChallengeKeeps(nodes, seen, c, count, victim);
            if Wins(n, oldest.value, count, victim) {
              count, victim := n, oldest;
            }
          }
        }
        assert categories.Keys - todo == seen + {c};
      }
    }

    /** The eligible branch of `select_victim`. */
    method SelectEligible(ghost p: Policy) returns (victim: Option<nat>)
      requires Valid(p) && Unprotected(p, EntriesOf(nodes)) != {}
      modifies this`categories
      ensures Valid(p) && victim.Some? && RuleVictim(p, EntriesOf(nodes), victim.value)
    {
      var count;
      count, victim := BestEligible();
      EligibleVictim(p, nodes, categories, count, victim);
    }

    /** The fallback counts of `select_victim`: per category, how many entries and the oldest one. */
    method FallbackCounts() returns (counts: map<string, (nat, nat)>)
      ensures CountsUpTo(nodes, nodes.Keys, counts)
    {
      counts := map[];
      var todo := nodes.Keys;
      while todo != {}
        invariant todo <= nodes.Keys
        invariant forall d, t | d in nodes.Keys - todo && t in todo :: d < t
        invariant CountsUpTo(nodes, nodes.Keys - todo, counts)
      {
        var s := Min(todo);
        ghost var done := nodes.Keys - todo;
        todo := todo - {s};
        var c := CategoryAt(nodes, s);
        CountOneMore(nodes, done, counts, s);
        counts := counts[c := if c in counts then (counts[c].0 + 1, counts[c].1) else (1, s)];
        assert nodes.Keys - todo == done + {s};
      }
      assert nodes.Keys - todo == nodes.Keys;
    }

    /** The fallback branch of `select_victim`, when every entry is protected. */
    method SelectFallback(ghost p: Policy) returns (victim: Option<nat>)
      requires Valid(p) && Unprotected(p, EntriesOf(nodes)) == {}
      ensures if nodes == map[] then victim == None
              else victim.Some? && RuleVictim(p, EntriesOf(nodes), victim.value)
    {
      var counts := FallbackCounts();
      CountsOfAll(nodes, counts);
      var count;
      count, victim := BestOf(counts, AllMarked(nodes));
      FallbackVictim(p, nodes, counts, count, victim);
    }

    /** `select_victim`: exactly the entry the from-scratch rule picks, or nothing when nothing is retained. */
    method SelectVictim(ghost p: Policy) returns (victim: Option<nat>)
      requires Valid(p)
      modifies this`categories
      ensures Valid(p)
      ensures if nodes == map[] then victim == None
              else victim.Some? && RuleVictim(p, EntriesOf(nodes), victim.value)
    {
      AnyEligible(p, nodes, high, categories);
      if exists c | c in categories :: categories[c].count != 0 {
        victim := SelectEligible(p);
      } else {
        victim := SelectFallback(p);
      }
    }

    /** `remove`: one node less and an index of the others; it still agrees with the rule exactly unless the node was
        a latest decision that shadowed an older one, which no candidate for eviction is. */
    method Remove(ghost p: Policy, s: nat)
      requires Valid(p) && s in nodes
      modifies this`nodes, this`categories
      ensures nodes == old(nodes) - {s} && IndexInv(nodes, high, categories) && FlagsInv(p, nodes)
      ensures Valid(p) <==> !Unshadows(p, EntriesOf(old(nodes)), s)
      ensures s in Candidates(p, EntriesOf(old(nodes))) ==> Valid(p)
    {
      hide CategoryInv;
      hide Protected;
      hide Unshadows;
      hide Candidates;
      var node, c := nodes[s], CategoryAt(nodes, s);
      RemoveKeepsIndex(nodes, high, categories, s);
      RemoveKeepsEligibleIff(p, nodes, s);
      RemoveKeepsEligible(p, nodes, s);
      nodes := nodes - {s};
      if c in categories {
        var st := categories[c];
        if node.eligible {
          st := st.(count := st.count - 1);
          if |st.heap| > 2 * (if st.count > 1 then st.count else 1) + 32 {
            st := st.(heap := set x | x in st.heap && x in nodes && nodes[x].eligible);
          }
        }
        st := st.(decisions := st.decisions - {s});
        if st.count == 0 && st.decisions == {} {
          categories := categories - {c};
        } else {
          categories := categories[c := st];
        }
      }
    }

    /** `clear`. */
    method Clear()
      requires high >= -1
      modifies this`nodes, this`categories
      ensures nodes == map[] && categories == map[] && forall p :: Valid(p)
    {
      nodes, categories := map[], map[];
    }

    /** Coalescing: a retained entry's size and last-seen version change in place. */
    method Touch(ghost p: Policy, s: nat, size: nat, lastSeen: nat)
      requires Valid(p) && s in nodes
      modifies this`nodes
      ensures Valid(p) && nodes == Touched(old(nodes), s, size, lastSeen)
    {
      TouchKeepsIndex(nodes, high, categories, s, size, lastSeen);
      TouchKeepsEligible(p, nodes, s, size, lastSeen);
      nodes := nodes[s := nodes[s].(size := size, lastSeen := lastSeen)];
    }

    /** One iteration of the first loop of `rebuild`: the node with fresh flags; a decision waits for the second. */
    method Reenter(s: nat, node: Node)
      requires IndexInv(nodes, high, categories) && s > high && !node.eligible
      modifies this
      ensures IndexInv(nodes, high, categories) && high == s
      ensures nodes == old(nodes)[s := node.(eligible := !node.decision && !node.base)]
    {
      hide IndexInv;
      AddKeepsIndex(nodes, high, categories, s, node);
      nodes, categories, high := nodes[s := node], Enrolled(categories, s, node), s;
      if !node.decision && !node.base {
        InsertEligible(s);
      }
    }

    /** The first loop of `rebuild`. */
    method ReenterAll(retained: Nodes)
      requires IndexInv(nodes, high, categories) && nodes == map[] && high == -1
      requires forall s | s in retained :: !retained[s].eligible
      modifies this
      ensures IndexInv(nodes, high, categories) && nodes == Entered(retained, retained.Keys)
      ensures high == -1 || high in retained
    {
      var todo := retained.Keys;
      ghost var done: set<nat> := {};
      while todo != {}
        invariant todo <= retained.Keys && done == retained.Keys - todo && nodes == Entered(retained, done)
        invariant IndexInv(nodes, high, categories)
        invariant high == -1 || high in retained
        invariant forall t | t in todo :: t > high
      {
        var s := Min(todo);
        EnteredNext(retained, done, s);
        Reenter(s, retained[s]);
        todo, done := todo - {s}, done + {s};
      }
    }

    /** The second loop of `rebuild`, for one category: every decision but the latest becomes evictable. */
    method ReleaseSuperseded(c: string) returns (ghost released: set<nat>)
      requires IndexInv(nodes, high, categories) && c in categories
      modifies this`nodes, this`categories
      ensures IndexInv(nodes, high, categories) && categories.Keys == old(categories).Keys
      ensures nodes == MarkAll(old(nodes), released) && released == SupersededIn(old(nodes), c)
    {
      ghost var before := nodes;
      var decisions := categories[c].decisions;
      assert decisions == Decisions(nodes, c) by { assert CategoryInv(nodes, high, c, categories[c]); }
      released := {};
      MarkNone(before);
      if decisions == {} {
        return;
      }
      var latest := Max(decisions);
      SupersededAreOlder(before, c);
      released := ReleaseEach(decisions - {latest});
    }

    /** Its inner loop. */
    method ReleaseEach(sequences: set<nat>) returns (ghost released: set<nat>)
      requires IndexInv(nodes, high, categories) && sequences <= nodes.Keys
      requires forall s | s in sequences :: CategoryAt(nodes, s) in categories
      modifies this`nodes, this`categories
      ensures IndexInv(nodes, high, categories) && categories.Keys == old(categories).Keys
      ensures nodes == MarkAll(old(nodes), released) && released == NotBase(old(nodes), sequences)
    {
      hide IndexInv;
      ghost var before := nodes;
      var todo := sequences;
      ghost var done: set<nat> := {};
      released := {};
      MarkNone(before);
      while todo != {}
        invariant todo <= sequences && done == sequences - todo && released == NotBase(before, done)
        invariant IndexInv(nodes, high, categories) && categories.Keys == old(categories).Keys
        invariant nodes == MarkAll(before, released)
      {
        var s :| s in todo;
        MarkAllNext(before, done, s);
        ReleaseOne(s);
        released := NotBase(before, done + {s});
        todo, done := todo - {s}, done + {s};
      }
    }

    method ReleaseOne(s: nat)
      requires IndexInv(nodes, high, categories) && s in nodes && CategoryAt(nodes, s) in categories
      modifies this`nodes, this`categories
      ensures IndexInv(nodes, high, categories) && categories.Keys == old(categories).Keys
      ensures nodes == if old(nodes)[s].base then old(nodes) else Mark(old(nodes), s)
    {
      if !nodes[s].base {
        InsertEligible(s);
      }
    }

    /** The second loop of `rebuild`. */
    method ReleaseAll(ghost retained: Nodes)
      requires IndexInv(nodes, high, categories) && Released(retained, nodes, {})
      modifies this`nodes, this`categories
      ensures IndexInv(nodes, high, categories) && Released(retained, nodes, categories.Keys)
    {
      hide IndexInv;
      hide Released;
      var todo := categories.Keys;
      ghost var seen: set<string> := {};
      while todo != {}
        invariant todo <= categories.Keys && seen == categories.Keys - todo
        invariant IndexInv(nodes, high, categories) && Released(retained, nodes, seen)
      {
        var c :| c in todo;
        ReleaseCategory(c, retained, seen);
        todo, seen := todo - {c}, seen + {c};
      }
      assert seen == categories.Keys;
    }

    method ReleaseCategory(c: string, ghost retained: Nodes, ghost seen: set<string>)
      requires IndexInv(nodes, high, categories) && c in categories && c !in seen && Released(retained, nodes, seen)
      modifies this`nodes, this`categories
      ensures IndexInv(nodes, high, categories) && categories.Keys == old(categories).Keys
      ensures Released(retained, nodes, seen + {c})
    {
      ghost var before := nodes;
      ghost var released := ReleaseSuperseded(c);
      ReleasedOneMore(retained, before, seen, c, released);
    }

    /** `rebuild`: keep some nodes, derive every flag anew from the policy and rebuild the index. */
    method Rebuild(p: Policy, kept: set<nat>)
      requires kept <= nodes.Keys && high >= -1 && forall s | s in nodes :: s <= high
      modifies this
      ensures Valid(p) && high == old(high)
      ensures nodes.Keys == kept && forall t | t in nodes :: SameRecord(nodes[t], old(nodes)[t])
    {
      hide IndexInv;
      hide EligibleInv;
      hide Released;
      EmptyIndex();
      ghost var newest := high;
      var retained := map s | s in kept :: Reflagged(p, nodes[s]);
      nodes, categories, high := map[], map[], -1;
      ReenterAll(retained);
      EnteredAll(retained);
      ReleaseAll(retained);
      RebuiltIsValid(p, retained, nodes, high, categories);
      IndexMonotone(nodes, high, categories, newest);
      high := newest;
    }
  }

  lemma IndexCount(nodes: Nodes, high: int, categories: Categories, c: string)
    requires IndexInv(nodes, high, categories) && c in categories
    ensures categories[c].count == |Eligible(nodes, c)|
  {
    assert CategoryInv(nodes, high, c, categories[c]);
  }

  /** Which node `append` makes eligible, if any: the superseded decision, or the new node itself. */
  function Freed(nodes: Nodes, s: nat, node: Node): Option<nat> {
    var earlier := Decisions(nodes, CategoryOf(node.entry));
    if node.decision then
      if earlier == {} || nodes[Max(earlier)].base then None else Some(Max(earlier))
    else if node.base then None else Some(s)
  }

  function Appended(nodes: Nodes, s: nat, node: Node): Nodes {
    var freed := Freed(nodes, s, node);
    if freed.Some? then Mark(nodes[s := node], freed.value) else nodes[s := node]
  }

  lemma AppendedFrame(nodes: Nodes, s: nat, node: Node)
    requires s !in nodes
    ensures var nodes' := Appended(nodes, s, node);
            && nodes'.Keys == nodes.Keys + {s}
            && (forall t | t in nodes :: nodes'[t] == nodes[t].(eligible := nodes'[t].eligible))
            && nodes'[s] == node.(eligible := nodes'[s].eligible)
  {
  }

  /** Marking the superseded decision, or the new node itself, restores agreement with the rule. */
  lemma AppendKeepsEligible(p: Policy, nodes: Nodes, s: nat, node: Node)
    requires FlagsInv(p, nodes) && EligibleInv(p, nodes) && forall t | t in nodes :: t < s
    requires node.base == BaseProtected(p, node.entry) && node.decision == IsDecision(p, node.entry) && !node.eligible
    ensures FlagsInv(p, Appended(nodes, s, node)) && EligibleInv(p, Appended(nodes, s, node))
  {
    var nodes' := Appended(nodes, s, node);
    var es := EntriesOf(nodes);
    assert EntriesOf(nodes') == es[s := node.entry];
    forall t | t in nodes' ensures nodes'[t].eligible <==> !Protected(p, es[s := node.entry], t) {
      if t == s { NewestProtection(p, es, s, node.entry); } else { AppendKeepsOne(p, nodes, s, node, t); }
    }
  }

  lemma NewestProtection(p: Policy, es: Entries, s: nat, e: Entry)
    requires forall u | u in es :: u < s
    ensures Protected(p, es[s := e], s) == (BaseProtected(p, e) || IsDecision(p, e))
  {
  }

  lemma AppendKeepsOne(p: Policy, nodes: Nodes, s: nat, node: Node, t: nat)
    requires FlagsInv(p, nodes) && EligibleInv(p, nodes) && (forall u | u in nodes :: u < s) && t in nodes
    requires node.decision == IsDecision(p, node.entry)
    ensures t in Appended(nodes, s, node)
    ensures Appended(nodes, s, node)[t].eligible <==> !Protected(p, EntriesOf(nodes)[s := node.entry], t)
  {
    AppendProtection(p, EntriesOf(nodes), s, node.entry, t);
    LatestIsMax(p, nodes, t);
  }

  lemma LatestIsMax(p: Policy, nodes: Nodes, t: nat)
    requires FlagsInv(p, nodes) && t in nodes
    ensures LatestDecision(p, EntriesOf(nodes), t) <==>
            var d := Decisions(nodes, CategoryAt(nodes, t)); d != {} && t == Max(d)
  {
    var es, d := EntriesOf(nodes), Decisions(nodes, CategoryAt(nodes, t));
    assert forall u | u in nodes :: u in d <==> IsDecision(p, es[u]) && SameCategory(es, t, u);
  }

  // ---- choosing a victim -------------------------------------------------------------------

  /** The current choice beats every member of a pool of one category: a larger count, or as large and as old. */
  ghost predicate Beaten(pool: set<nat>, count: nat, victim: Option<nat>) {
    forall t | t in pool :: victim.Some? && (|pool| < count || (|pool| == count && victim.value <= t))
  }

  /** The current choice is an eligible node of a category with `count` eligible nodes. */
  ghost predicate Champion(nodes: Nodes, count: nat, v: nat) {
    v in nodes && nodes[v].eligible && count == |Eligible(nodes, CategoryAt(nodes, v))|
  }

  /** The comparison both selection loops make. */
  predicate Wins(n: nat, oldest: nat, count: nat, victim: Option<nat>) {
    n > count || (n == count && (victim == None || oldest < victim.value))
  }

  /** Adopting a winning challenger keeps every category seen so far beaten, and beats the challenger's own. */
  lemma ChallengeKeeps(nodes: Nodes, seen: set<string>, c: string, count: nat, victim: Option<nat>)
    requires forall d | d in seen :: Beaten(Eligible(nodes, d), count, victim)
    requires victim.None? ==> count == 0
    requires Eligible(nodes, c) != {}
    ensures var n, oldest := |Eligible(nodes, c)|, Min(Eligible(nodes, c));
            if Wins(n, oldest, count, victim)
            then Champion(nodes, n, oldest) && forall d | d in seen + {c} :: Beaten(Eligible(nodes, d), n, Some(oldest))
            else forall d | d in seen + {c} :: Beaten(Eligible(nodes, d), count, victim)
  {
    var n, oldest := |Eligible(nodes, c)|, Min(Eligible(nodes, c));
    forall d | d in seen + {c}
      ensures if Wins(n, oldest, count, victim) then Beaten(Eligible(nodes, d), n, Some(oldest))
              else Beaten(Eligible(nodes, d), count, victim)
    {
      if d != c { assert Beaten(Eligible(nodes, d), count, victim); }
    }
  }

  lemma EligibleIsUnprotected(p: Policy, nodes: Nodes, c: string)
    requires EligibleInv(p, nodes)
    ensures var es := EntriesOf(nodes); InCategory(es, Unprotected(p, es), c) == Eligible(nodes, c)
  {
  }

  lemma EligibleVictim(p: Policy, nodes: Nodes, categories: Categories, count: nat, victim: Option<nat>)
    requires EligibleInv(p, nodes) && Unprotected(p, EntriesOf(nodes)) != {}
    requires forall s | s in nodes && nodes[s].eligible :: CategoryAt(nodes, s) in categories
    requires forall c | c in categories.Keys :: Beaten(Eligible(nodes, c), count, victim)
    requires victim.Some? ==> Champion(nodes, count, victim.value)
    ensures victim.Some? && RuleVictim(p, EntriesOf(nodes), victim.value)
  {
    var es := EntriesOf(nodes);
    var pool := Unprotected(p, es);
    forall t | t in pool
      ensures victim.Some? && victim.value in pool
      ensures var n, m := |InCategory(es, pool, CategoryOf(es[t]))|,
              |InCategory(es, pool, CategoryOf(es[victim.value]))|;
              n < m || (n == m && victim.value <= t)
    {
      assert t in nodes && nodes[t].eligible && t in Eligible(nodes, CategoryAt(nodes, t));
      assert Beaten(Eligible(nodes, CategoryAt(nodes, t)), count, victim);
      EligibleIsUnprotected(p, nodes, CategoryAt(nodes, t));
      EligibleIsUnprotected(p, nodes, CategoryAt(nodes, victim.value));
    }
  }

  lemma AnyEligible(p: Policy, nodes: Nodes, high: int, categories: Categories)
    requires IndexInv(nodes, high, categories) && EligibleInv(p, nodes)
    ensures (exists c | c in categories :: categories[c].count != 0) <==> Unprotected(p, EntriesOf(nodes)) != {}
    ensures Unprotected(p, EntriesOf(nodes)) != {} ==> nodes != map[]
  {
    if c :| c in categories && categories[c].count != 0 {
      assert CategoryInv(nodes, high, c, categories[c]);
      EligibleIsUnprotected(p, nodes, c);
      var s :| s in Eligible(nodes, c);
      assert s in Unprotected(p, EntriesOf(nodes));
    }
    if s :| s in Unprotected(p, EntriesOf(nodes)) {
      var c := CategoryAt(nodes, s);
      assert CategoryInv(nodes, high, c, categories[c]) && s in Eligible(nodes, c);
    }
  }

  /** The selection loop over the fallback counts. */
  method BestOf(counts: map<string, (nat, nat)>, ghost all: Nodes) returns (count: nat, victim: Option<nat>)
    requires forall c | c in counts ::
               Eligible(all, c) != {} && counts[c] == (|Eligible(all, c)|, Min(Eligible(all, c)))
    ensures forall c | c in counts.Keys :: Beaten(Eligible(all, c), count, victim)
    ensures victim.Some? ==> Champion(all, count, victim.value)
  {
    var todo := counts.Keys;
    count, victim := 0, None;
    while todo != {}
      invariant todo <= counts.Keys
      invariant forall c | c in counts.Keys - todo :: Beaten(Eligible(all, c), count, victim)
      invariant if victim.Some? then Champion(all, count, victim.value) else count == 0
    {
      var c :| c in todo;
      ghost var seen := counts.Keys - todo;
      todo := todo - {c};
      var (n, oldest) := counts[c];
      ChallengeKeeps(all, seen, c, count, victim);
      if Wins(n, oldest, count, victim) {
        count, victim := n, Some(oldest);
      }
      assert counts.Keys - todo == seen + {c};
    }
  }

  /** The count kept for one category is the number of its entries seen so far and the oldest of them. */
  ghost predicate CountIs(pool: set<nat>, counts: map<string, (nat, nat)>, c: string) {
    if pool == {} then c !in counts else c in counts && counts[c] == (|pool|, Min(pool))
  }

  ghost predicate CountsUpTo(nodes: Nodes, done: set<nat>, counts: map<string, (nat, nat)>) {
    forall c :: CountIs(InCategory(EntriesOf(nodes), done, c), counts, c)
  }

  lemma CountIsNext(pool: set<nat>, counts: map<string, (nat, nat)>, c: string, s: nat)
    requires CountIs(pool, counts, c) && s !in pool && forall d | d in pool :: d < s
    ensures CountIs(pool + {s}, counts[c := if c in counts then (counts[c].0 + 1, counts[c].1) else (1, s)], c)
  {
    if pool == {} { assert pool + {s} == {s}; } else { assert Min(pool) in pool + {s}; }
  }

  lemma CountOneMore(nodes: Nodes, done: set<nat>, counts: map<string, (nat, nat)>, s: nat)
    requires s in nodes && s !in done && CountsUpTo(nodes, done, counts)
    requires forall d | d in done :: d < s
    ensures var c := CategoryAt(nodes, s);
            CountsUpTo(nodes, done + {s}, counts[c := if c in counts then (counts[c].0 + 1, counts[c].1) else (1, s)])
  {
    var es, c := EntriesOf(nodes), CategoryAt(nodes, s);
    var counts' := counts[c := if c in counts then (counts[c].0 + 1, counts[c].1) else (1, s)];
    forall d ensures CountIs(InCategory(es, done + {s}, d), counts', d) {
      var pool := InCategory(es, done, d);
      assert CountIs(pool, counts, d);
      if d == c {
        CountIsNext(pool, counts, c, s);
        assert InCategory(es, done + {s}, c) == pool + {s};
      } else {
        assert InCategory(es, done + {s}, d) == pool;
      }
    }
  }

  function AllMarked(nodes: Nodes): Nodes { map s | s in nodes :: nodes[s].(eligible := true) }

  lemma CountsOfAll(nodes: Nodes, counts: map<string, (nat, nat)>)
    requires CountsUpTo(nodes, nodes.Keys, counts)
    ensures forall c | c in counts ::
              Eligible(AllMarked(nodes), c) != {} &&
              counts[c] == (|Eligible(AllMarked(nodes), c)|, Min(Eligible(AllMarked(nodes), c)))
    ensures forall s | s in nodes :: CategoryAt(nodes, s) in counts
    ensures forall c :: InCategory(EntriesOf(nodes), nodes.Keys, c) == Eligible(AllMarked(nodes), c)
  {
    forall c ensures InCategory(EntriesOf(nodes), nodes.Keys, c) == Eligible(AllMarked(nodes), c) {
    }
    forall c | c in counts
      ensures Eligible(AllMarked(nodes), c) != {} &&
              counts[c] == (|Eligible(AllMarked(nodes), c)|, Min(Eligible(AllMarked(nodes), c)))
    {
      assert CountIs(InCategory(EntriesOf(nodes), nodes.Keys, c), counts, c);
    }
    forall s | s in nodes ensures CategoryAt(nodes, s) in counts {
      var pool := InCategory(EntriesOf(nodes), nodes.Keys, CategoryAt(nodes, s));
      assert s in pool && CountIs(pool, counts, CategoryAt(nodes, s));
    }
  }

  lemma FallbackVictim(p: Policy, nodes: Nodes, counts: map<string, (nat, nat)>, count: nat, victim: Option<nat>)
    requires Unprotected(p, EntriesOf(nodes)) == {} && CountsUpTo(nodes, nodes.Keys, counts)
    requires forall c | c in counts.Keys :: Beaten(Eligible(AllMarked(nodes), c), count, victim)
    requires victim.Some? ==> Champion(AllMarked(nodes), count, victim.value)
    ensures if nodes == map[] then victim == None
            else victim.Some? && RuleVictim(p, EntriesOf(nodes), victim.value)
  {
    var es, all := EntriesOf(nodes), AllMarked(nodes);
    assert es.Keys == nodes.Keys;
    CountsOfAll(nodes, counts);
    forall t | t in nodes
      ensures victim.Some? && victim.value in nodes
      ensures var n, m := |InCategory(es, es.Keys, CategoryOf(es[t]))|,
              |InCategory(es, es.Keys, CategoryOf(es[victim.value]))|;
              n < m || (n == m && victim.value <= t)
    {
      assert t in Eligible(all, CategoryAt(nodes, t));
      assert Beaten(Eligible(all, CategoryAt(nodes, t)), count, victim);
    }
  }

  // ---- removal ------------------------------------------------------------------------------

  function ShrunkState(st: CategoryState, rest: Nodes, s: nat, eligible: bool): CategoryState
    requires eligible ==> st.count > 0
  {
    var count := if eligible then st.count - 1 else st.count;
    var heap := if eligible && |st.heap| > 2 * (if count > 1 then count else 1) + 32
                then set x | x in st.heap && x in rest && rest[x].eligible else st.heap;
    CategoryState(heap, count, st.decisions - {s})
  }

  lemma RemoveKeepsOther(nodes: Nodes, high: int, c: string, st: CategoryState, s: nat)
    requires CategoryInv(nodes, high, c, st) && s in nodes && CategoryAt(nodes, s) != c
    ensures CategoryInv(nodes - {s}, high, c, st)
  {
    assert Eligible(nodes - {s}, c) == Eligible(nodes, c) && Decisions(nodes - {s}, c) == Decisions(nodes, c);
  }

  lemma RemoveKeepsOwn(nodes: Nodes, high: int, st: CategoryState, s: nat)
    requires s in nodes && CategoryInv(nodes, high, CategoryAt(nodes, s), st)
    ensures nodes[s].eligible ==> st.count > 0
    ensures CategoryInv(nodes - {s}, high, CategoryAt(nodes, s), ShrunkState(st, nodes - {s}, s, nodes[s].eligible))
  {
    var rest, c := nodes - {s}, CategoryAt(nodes, s);
    assert Decisions(rest, c) == Decisions(nodes, c) - {s};
    if nodes[s].eligible {
      assert s in Eligible(nodes, c) && Eligible(rest, c) == Eligible(nodes, c) - {s};
      assert (set x | x in st.heap && x in rest && rest[x].eligible) == Eligible(rest, c);
    } else {
      assert Eligible(rest, c) == Eligible(nodes, c);
    }
  }

  function Shrunk(nodes: Nodes, categories: Categories, s: nat): Categories
    requires s in nodes
    requires CategoryAt(nodes, s) in categories && nodes[s].eligible ==> categories[CategoryAt(nodes, s)].count > 0
  {
    var c := CategoryAt(nodes, s);
    if c !in categories then categories
    else
      var st := ShrunkState(categories[c], nodes - {s}, s, nodes[s].eligible);
      if st.count == 0 && st.decisions == {} then categories - {c} else categories[c := st]
  }

  lemma RemoveKeepsIndex(nodes: Nodes, high: int, categories: Categories, s: nat)
    requires IndexInv(nodes, high, categories) && s in nodes
    ensures CategoryAt(nodes, s) in categories && nodes[s].eligible ==> categories[CategoryAt(nodes, s)].count > 0
    ensures IndexInv(nodes - {s}, high, Shrunk(nodes, categories, s))
  {
    var c := CategoryAt(nodes, s);
    if c in categories { RemoveKeepsOwn(nodes, high, categories[c], s); }
    var rest, categories' := nodes - {s}, Shrunk(nodes, categories, s);
    forall d | d in categories' ensures CategoryInv(rest, high, d, categories'[d]) {
      if d != c { RemoveKeepsOther(nodes, high, d, categories[d], s); }
    }
    forall t | t in rest && (rest[t].eligible || rest[t].decision) ensures CategoryAt(rest, t) in categories' {
      var d := CategoryAt(nodes, t);
      assert d in categories;
      if d == c {
        assert t in Eligible(rest, c) || t in Decisions(rest, c);
      }
    }
  }

  /** Eligible still means unprotected exactly unless the removed node unshadows another. */
  lemma RemoveKeepsEligibleIff(p: Policy, nodes: Nodes, s: nat)
    requires FlagsInv(p, nodes) && EligibleInv(p, nodes) && s in nodes
    ensures FlagsInv(p, nodes - {s})
    ensures EligibleInv(p, nodes - {s}) <==> !Unshadows(p, EntriesOf(nodes), s)
  {
    hide Protected;
    hide Unshadows;
    var es := EntriesOf(nodes);
    assert EntriesOf(nodes - {s}) == es - {s};
    RemovalBreaksProtectionIff(p, es, s);
    forall t | t in nodes && t != s
      ensures t in es && ((nodes[t].eligible <==> !Protected(p, es - {s}, t)) <==>
                          Protected(p, es - {s}, t) == Protected(p, es, t))
    {
    }
  }

  lemma RemoveKeepsEligible(p: Policy, nodes: Nodes, s: nat)
    requires FlagsInv(p, nodes) && EligibleInv(p, nodes)
    ensures s in Candidates(p, EntriesOf(nodes)) ==> EligibleInv(p, nodes - {s})
  {
    hide Candidates;
    var es := EntriesOf(nodes);
    assert EntriesOf(nodes - {s}) == es - {s};
    if s in Candidates(p, es) {
      forall t | t in nodes - {s} ensures nodes[t].eligible <==> !Protected(p, es - {s}, t) {
        RemovalKeepsProtection(p, es, s, t);
      }
    }
  }

  // ---- coalescing ------------------------------------------------------------------------------

  function Touched(nodes: Nodes, s: nat, size: nat, lastSeen: nat): Nodes
    requires s in nodes
  {
    nodes[s := nodes[s].(size := size, lastSeen := lastSeen)]
  }

  lemma TouchKeepsIndex(nodes: Nodes, high: int, categories: Categories, s: nat, size: nat, lastSeen: nat)
    requires IndexInv(nodes, high, categories) && s in nodes
    ensures IndexInv(Touched(nodes, s, size, lastSeen), high, categories)
  {
    var nodes' := Touched(nodes, s, size, lastSeen);
    forall c | c in categories ensures CategoryInv(nodes', high, c, categories[c]) {
      assert CategoryInv(nodes, high, c, categories[c]);
      assert Eligible(nodes', c) == Eligible(nodes, c) && Decisions(nodes', c) == Decisions(nodes, c);
    }
  }

  lemma TouchKeepsEligible(p: Policy, nodes: Nodes, s: nat, size: nat, lastSeen: nat)
    requires FlagsInv(p, nodes) && EligibleInv(p, nodes) && s in nodes
    ensures var nodes' := Touched(nodes, s, size, lastSeen); FlagsInv(p, nodes') && EligibleInv(p, nodes')
  {
    assert EntriesOf(Touched(nodes, s, size, lastSeen)) == EntriesOf(nodes);
  }

  // ---- rebuilding ------------------------------------------------------------------------------

  /** Everything but the derived flags. */
  predicate SameRecord(a: Node, b: Node) {
    a.entry == b.entry && a.size == b.size && a.lastSeen == b.lastSeen && a.signature == b.signature
  }

  function Reflagged(p: Policy, node: Node): Node {
    node.(base := BaseProtected(p, node.entry), decision := IsDecision(p, node.entry), eligible := false)
  }

  /** A newer decision of the same category exists. */
  ghost predicate Superseded(nodes: Nodes, t: nat)
    requires t in nodes
  {
    exists u :: u in Decisions(nodes, CategoryAt(nodes, t)) && t < u
  }

  function MarkAll(nodes: Nodes, marked: set<nat>): Nodes {
    map t | t in nodes :: if t in marked then nodes[t].(eligible := true) else nodes[t]
  }

  /** The nodes entered by the first loop of `rebuild` so far. */
  function Entered(retained: Nodes, done: set<nat>): Nodes {
    map t | t in done && t in retained :: retained[t].(eligible := !retained[t].decision && !retained[t].base)
  }

  lemma EnteredNext(retained: Nodes, done: set<nat>, s: nat)
    requires s in retained
    ensures Entered(retained, done + {s}) ==
            Entered(retained, done)[s := retained[s].(eligible := !retained[s].decision && !retained[s].base)]
  {
  }

  lemma EnteredAll(retained: Nodes)
    ensures Released(retained, Entered(retained, retained.Keys), {})
  {
  }

  ghost function NotBase(nodes: Nodes, ts: set<nat>): set<nat> { set t | t in ts && t in nodes && !nodes[t].base }

  ghost function SupersededIn(nodes: Nodes, c: string): set<nat> {
    set t | t in Decisions(nodes, c) && Superseded(nodes, t) && !nodes[t].base
  }

  lemma MarkNone(nodes: Nodes)
    ensures MarkAll(nodes, {}) == nodes
  {
  }

  lemma MarkAllNext(nodes: Nodes, done: set<nat>, s: nat)
    requires s in nodes
    ensures NotBase(nodes, done + {s}) == if nodes[s].base then NotBase(nodes, done) else NotBase(nodes, done) + {s}
    ensures MarkAll(nodes, NotBase(nodes, done) + {s}) == Mark(MarkAll(nodes, NotBase(nodes, done)), s)
  {
  }

  lemma SupersededAreOlder(nodes: Nodes, c: string)
    requires Decisions(nodes, c) != {}
    ensures SupersededIn(nodes, c) == NotBase(nodes, Decisions(nodes, c) - {Max(Decisions(nodes, c))})
  {
    var d := Decisions(nodes, c);
    forall t | t in d ensures Superseded(nodes, t) <==> t != Max(d) {
      if t != Max(d) { assert Max(d) in Decisions(nodes, CategoryAt(nodes, t)); }
    }
  }

  /** Eligibility part-way through `rebuild`: the superseded decisions of the categories in `seen` are released. */
  ghost predicate Released(retained: Nodes, nodes: Nodes, seen: set<string>) {
    && nodes.Keys == retained.Keys
    && forall t | t in nodes ::
         nodes[t] == retained[t].(eligible :=
           !retained[t].base && (retained[t].decision ==> CategoryAt(retained, t) in seen && Superseded(retained, t)))
  }

  lemma ReleasedDecisions(retained: Nodes, nodes: Nodes, seen: set<string>, c: string)
    requires Released(retained, nodes, seen)
    ensures Decisions(nodes, c) == Decisions(retained, c)
  {
  }

  lemma ReleasedOneMore(retained: Nodes, nodes: Nodes, seen: set<string>, c: string, released: set<nat>)
    requires Released(retained, nodes, seen) && c !in seen
    requires released == SupersededIn(nodes, c)
    ensures Released(retained, MarkAll(nodes, released), seen + {c})
  {
    forall d ensures Decisions(nodes, d) == Decisions(retained, d) { ReleasedDecisions(retained, nodes, seen, d); }
    forall t | t in nodes ensures Superseded(nodes, t) == Superseded(retained, t) {
    }
  }

  lemma RebuiltIsValid(p: Policy, retained: Nodes, nodes: Nodes, high: int, categories: Categories)
    requires IndexInv(nodes, high, categories) && Released(retained, nodes, categories.Keys)
    requires FlagsInv(p, retained)
    ensures FlagsInv(p, nodes) && EligibleInv(p, nodes)
    ensures nodes.Keys == retained.Keys && forall t | t in nodes :: SameRecord(nodes[t], retained[t])
  {
    var es := EntriesOf(retained);
    assert EntriesOf(nodes) == es;
    forall t | t in nodes ensures nodes[t].eligible <==> !Protected(p, es, t) {
      LatestIsNotSuperseded(p, retained, t);
    }
  }

  lemma LatestIsNotSuperseded(p: Policy, nodes: Nodes, t: nat)
    requires FlagsInv(p, nodes) && t in nodes
    ensures LatestDecision(p, EntriesOf(nodes), t) <==> nodes[t].decision && !Superseded(nodes, t)
  {
    var es, d := EntriesOf(nodes), Decisions(nodes, CategoryAt(nodes, t));
    assert forall u | u in nodes :: u in d <==> IsDecision(p, es[u]) && SameCategory(es, t, u);
  }

  lemma EmptyIndex()
    ensures IndexInv(map[], -1, map[])
  {
  }

  lemma IndexMonotone(nodes: Nodes, high: int, categories: Categories, newest: int)
    requires IndexInv(nodes, high, categories) && high <= newest
    ensures IndexInv(nodes, newest, categories)
  {
    forall c | c in categories ensures CategoryInv(nodes, newest, c, categories[c]) {
      assert CategoryInv(nodes, high, c, categories[c]);
    }
  }
}
