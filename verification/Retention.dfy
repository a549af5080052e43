/**
 The retention rule, from scratch: which retained breadcrumbs are protected and which one is
 evicted next (BreadcrumbTraceCollector.__protected_indices in
 src/python/common/breadcrumb_trace.py). Entries are keyed by their version, which is also
 their age: a smaller key is an older entry.
 */
module Retention {
  import opened Options

  /** What retention looks at; an absent category is the empty string, `content` is the entry's plain signature. */
  datatype Entry = Entry(category: string, level: string, eventType: string, content: string)

  datatype Policy = Policy(
    protectedLevels: set<string>, protectedCategory: string -> bool, latestTypes: set<string>)

  type Entries = map<nat, Entry>

  function CategoryOf(e: Entry): string { if e.category == "" then "unknown" else e.category }

  predicate BaseProtected(p: Policy, e: Entry) { e.level in p.protectedLevels || p.protectedCategory(e.category) }

  predicate IsDecision(p: Policy, e: Entry) { e.eventType in p.latestTypes }

  predicate SameCategory(es: Entries, s: nat, t: nat)
    requires s in es && t in es
  {
    CategoryOf(es[s]) == CategoryOf(es[t])
  }

  /** The newest decision of its category. */
  predicate LatestDecision(p: Policy, es: Entries, s: nat)
    requires s in es
  {
    IsDecision(p, es[s]) && forall t | t in es && IsDecision(p, es[t]) && SameCategory(es, s, t) :: t <= s
  }

  predicate Protected(p: Policy, es: Entries, s: nat)
    requires s in es
  {
    BaseProtected(p, es[s]) || LatestDecision(p, es, s)
  }

  function Unprotected(p: Policy, es: Entries): set<nat> { set s | s in es && !Protected(p, es, s) }

  /** Unprotected entries, or all of them when every entry is protected. */
  function Candidates(p: Policy, es: Entries): set<nat> {
    if Unprotected(p, es) == {} then es.Keys else Unprotected(p, es)
  }

  function InCategory(es: Entries, pool: set<nat>, c: string): set<nat> {
    set s | s in pool && s in es && CategoryOf(es[s]) == c
  }

  /** The oldest candidate of the largest candidate category; ties go to the oldest. */
  predicate RuleVictim(p: Policy, es: Entries, v: nat) {
    var pool := Candidates(p, es);
    && v in pool && v in es
    && forall t | t in pool && t in es ::
         var n, m := |InCategory(es, pool, CategoryOf(es[t]))|, |InCategory(es, pool, CategoryOf(es[v]))|;
         n < m || (n == m && v <= t)
  }

  /** Two categories are one when they are equal, an absent one counting as "unknown". */
  predicate OneCategory(a: Entry, b: Entry) {
    a.category == b.category || (a.category in {"", "unknown"} && b.category in {"", "unknown"})
  }

  /** The rule on the fields: protected by level, by category, or as the newest decision of its category. */
  ghost predicate Shielded(p: Policy, es: Entries, s: nat)
    requires s in es
  {
    || es[s].level in p.protectedLevels
    || p.protectedCategory(es[s].category)
    || (es[s].eventType in p.latestTypes &&
        forall t | t in es && t > s :: !(es[t].eventType in p.latestTypes && OneCategory(es[s], es[t])))
  }

  lemma ProtectedMeans(p: Policy, es: Entries, s: nat)
    requires s in es
    ensures Protected(p, es, s) <==> Shielded(p, es, s)
  {
    forall t | t in es ensures SameCategory(es, s, t) <==> OneCategory(es[s], es[t]) {
    }
  }

  /** The entries of the pool in one category with the given one. */
  ghost function Peers(es: Entries, pool: set<nat>, s: nat): set<nat>
    requires s in es
  {
    set t | t in pool && t in es && OneCategory(es[s], es[t])
  }

  /** The victim on the fields: among the unshielded entries, or among all if every entry is shielded, it is in a
      largest category and older than everything in an equally large one. */
  lemma RuleVictimMeans(p: Policy, es: Entries, v: nat, pool: set<nat>)
    requires pool == if exists s :: s in es && !Shielded(p, es, s) then set s | s in es && !Shielded(p, es, s)
             else es.Keys
    ensures RuleVictim(p, es, v) <==>
              && v in pool && v in es
              && forall t | t in pool && t in es ::
                   |Peers(es, pool, t)| < |Peers(es, pool, v)| ||
                     (|Peers(es, pool, t)| == |Peers(es, pool, v)| && v <= t)
  {
    hide Protected;
    hide Shielded;
    forall s | s in es ensures Protected(p, es, s) <==> Shielded(p, es, s) {
      ProtectedMeans(p, es, s);
    }
    assert Unprotected(p, es) == set s | s in es && !Shielded(p, es, s);
    if exists s :: s in es && !Shielded(p, es, s) {
      var s :| s in es && !Shielded(p, es, s);
      assert s in Unprotected(p, es);
    } else {
      assert Unprotected(p, es) == {};
    }
    assert pool == Candidates(p, es);
    forall s | s in es ensures Peers(es, pool, s) == InCategory(es, pool, CategoryOf(es[s])) {
      PeersMean(es, pool, s);
    }
  }

  lemma PeersMean(es: Entries, pool: set<nat>, s: nat)
    requires s in es
    ensures Peers(es, pool, s) == InCategory(es, pool, CategoryOf(es[s]))
  {
  }

  lemma RuleVictimUnique(p: Policy, es: Entries, v: nat, w: nat)
    requires RuleVictim(p, es, v) && RuleVictim(p, es, w)
    ensures v == w
  {
  }

  /** If removing s makes t a latest decision, s was the latest one, newer than t, and nothing came between. */
  lemma OnlyShadow(p: Policy, es: Entries, s: nat, t: nat)
    requires s in es && t in es && t != s
    requires LatestDecision(p, es - {s}, t) && !LatestDecision(p, es, t)
    ensures SameCategory(es, s, t) && s > t && LatestDecision(p, es, s)
  {
    var es' := es - {s};
    var u :| u in es && IsDecision(p, es[u]) && SameCategory(es, t, u) && u > t;
    if u != s {
      assert u in es' && SameCategory(es', t, u);
    }
    forall w | w in es && IsDecision(p, es[w]) && SameCategory(es, s, w) ensures w <= s {
      if w != s { assert w in es' && SameCategory(es', t, w); }
    }
  }

  /** Removing a candidate changes nobody else's protection. */
  lemma RemovalKeepsProtection(p: Policy, es: Entries, s: nat, t: nat)
    requires s in Candidates(p, es) && t in es && t != s
    ensures Protected(p, es - {s}, t) == Protected(p, es, t)
  {
    var es' := es - {s};
    if LatestDecision(p, es', t) && !LatestDecision(p, es, t) {
      OnlyShadow(p, es, s, t);
      assert s !in Unprotected(p, es) && t !in Unprotected(p, es);
    }
  }

  /** The entry is a latest decision that shadows an older one with no other protection. */
  ghost predicate Unshadows(p: Policy, es: Entries, s: nat)
    requires s in es
  {
    LatestDecision(p, es, s) &&
    exists t :: t in es && t != s && SameCategory(es, s, t) && LatestDecision(p, es - {s}, t) &&
      !BaseProtected(p, es[t])
  }

  /** Removing anything else can: exactly a latest decision that shadows an older unprotected one. */
  lemma RemovalBreaksProtectionIff(p: Policy, es: Entries, s: nat)
    requires s in es
    ensures (forall t | t in es && t != s :: Protected(p, es - {s}, t) == Protected(p, es, t)) <==> !Unshadows(p, es, s)
  {
    var es' := es - {s};
    forall t | t in es && t != s
      ensures Protected(p, es', t) != Protected(p, es, t) <==>
              (LatestDecision(p, es, s) && SameCategory(es, s, t) && LatestDecision(p, es', t) &&
               !BaseProtected(p, es[t]))
    {
      if LatestDecision(p, es', t) && !LatestDecision(p, es, t) {
        OnlyShadow(p, es, s, t);
      }
    }
  }

  // ---- the rule as the source scans it --------------------------------------------------

  function Indexed(es: seq<Entry>): Entries { map i | 0 <= i < |es| :: es[i] }

  /** The last decision of category `c` among the first `n` entries is at `k`. */
  ghost predicate LastDecisionAt(p: Policy, es: seq<Entry>, n: nat, c: string, k: nat)
    requires n <= |es|
  {
    && k < n && IsDecision(p, es[k]) && CategoryOf(es[k]) == c
    && forall j | k < j < n :: !(IsDecision(p, es[j]) && CategoryOf(es[j]) == c)
  }

  lemma IndexedMeans(p: Policy, es: seq<Entry>)
    ensures forall i | 0 <= i < |es| :: Protected(p, Indexed(es), i) <==>
              || es[i].level in p.protectedLevels
              || p.protectedCategory(es[i].category)
              || (es[i].eventType in p.latestTypes &&
                  forall j | i < j < |es| :: !(es[j].eventType in p.latestTypes && OneCategory(es[i], es[j])))
  {
    hide Protected;
    var indexed := Indexed(es);
    forall i | 0 <= i < |es| ensures Protected(p, indexed, i) <==> Shielded(p, indexed, i) {
      ProtectedMeans(p, indexed, i);
    }
    assert forall j | 0 <= j < |es| :: j in indexed && indexed[j] == es[j];
  }

  /** `__protected_indices`: one scan finds exactly the entries the rule protects. */
  method ProtectedIndices(p: Policy, es: seq<Entry>) returns (protected: set<nat>)
    ensures protected == set i | 0 <= i < |es| && Protected(p, Indexed(es), i)
    ensures forall i | 0 <= i < |es| :: i in protected <==>
              || es[i].level in p.protectedLevels
              || p.protectedCategory(es[i].category)
              || (es[i].eventType in p.latestTypes &&
                  forall j | i < j < |es| :: !(es[j].eventType in p.latestTypes && OneCategory(es[i], es[j])))
  {
    var latest: map<string, nat> := map[];
    protected := {};
    for i := 0 to |es|
      invariant protected == set j | 0 <= j < i && BaseProtected(p, es[j])
      invariant forall c | c in latest :: LastDecisionAt(p, es, i, c, latest[c])
      invariant forall j | 0 <= j < i && IsDecision(p, es[j]) :: CategoryOf(es[j]) in latest
    {
      if IsDecision(p, es[i]) {
        latest := latest[CategoryOf(es[i]) := i];
      }
      if BaseProtected(p, es[i]) {
        protected := protected + {i};
      }
    }
    forall k | 0 <= k < |es| ensures k in latest.Values <==> LatestDecision(p, Indexed(es), k) {
      if LatestDecision(p, Indexed(es), k) {
        var c := CategoryOf(es[k]);
        assert LastDecisionAt(p, es, |es|, c, latest[c]);
        assert SameCategory(Indexed(es), k, latest[c]);
        assert latest[c] == k;
      }
    }
    protected := protected + latest.Values;
    IndexedMeans(p, es);
  }

  /** Only the order of the keys matters: numbering the entries by version or by position is the same rule. */
  lemma Renumbering(p: Policy, es: Entries, order: seq<nat>, i: nat)
    requires forall a, b | 0 <= a < b < |order| :: order[a] < order[b]
    requires forall s :: s in order <==> s in es
    requires i < |order|
    ensures Protected(p, es, order[i]) <==>
            Protected(p, Indexed(seq(|order|, (k: nat) requires k < |order| => es[order[k]])), i)
  {
    var values := Indexed(seq(|order|, (k: nat) requires k < |order| => es[order[k]]));
    forall k | 0 <= k < |order| ensures values[k] == es[order[k]] &&
      (SameCategory(values, i, k) <==> SameCategory(es, order[i], order[k])) {
    }
    if LatestDecision(p, values, i) {
      forall t | t in es && IsDecision(p, es[t]) && SameCategory(es, order[i], t) ensures t <= order[i] {
        var k :| 0 <= k < |order| && order[k] == t;
        assert SameCategory(values, i, k);
      }
    }
    if LatestDecision(p, es, order[i]) {
      forall k | k in values && IsDecision(p, values[k]) && SameCategory(values, i, k) ensures k <= i {
        assert order[k] in es && SameCategory(es, order[i], order[k]);
      }
    }
  }

  // ---- sizes ----------------------------------------------------------------------

  ghost function TotalSize(sizes: map<nat, nat>): nat
    decreases |sizes|
  {
    if sizes == map[] then 0
    else
      var s :| s in sizes;
      sizes[s] + TotalSize(sizes - {s})
  }

  lemma {:induction false} TotalSizeRemove(sizes: map<nat, nat>, s: nat)
    requires s in sizes
    ensures TotalSize(sizes) == sizes[s] + TotalSize(sizes - {s})
    decreases |sizes|
  {
    var t :| t in sizes && TotalSize(sizes) == sizes[t] + TotalSize(sizes - {t});
    if t != s {
      TotalSizeRemove(sizes - {t}, s);
      TotalSizeRemove(sizes - {s}, t);
      assert sizes - {t} - {s} == sizes - {s} - {t};
    }
  }

  lemma TotalSizeAdd(sizes: map<nat, nat>, s: nat, n: nat)
    requires s !in sizes
    ensures TotalSize(sizes[s := n]) == TotalSize(sizes) + n
  {
    TotalSizeRemove(sizes[s := n], s);
    assert sizes[s := n] - {s} == sizes;
  }

  // ---- eviction to a budget, by the rule ----------------------------------------------

  datatype Limits = Limits(budget: nat, maxEntries: Option<nat>)

  predicate CountFits(limits: Limits, n: nat) { limits.maxEntries == None || n <= limits.maxEntries.value }

  ghost predicate Fits(limits: Limits, sizes: map<nat, nat>) {
    TotalSize(sizes) <= limits.budget && CountFits(limits, |sizes|)
  }

  /** Evicting rule victims one by one until the limits hold leads from the first state to the second. */
  ghost predicate EvictsTo(p: Policy, limits: Limits, es: Entries, sizes: map<nat, nat>, es': Entries)
    requires es.Keys == sizes.Keys
    decreases |sizes|
  {
    if Fits(limits, sizes) || sizes == map[] then es' == es
    else exists v :: v in sizes && RuleVictim(p, es, v) && EvictsTo(p, limits, es - {v}, sizes - {v}, es')
  }

  /** The rule leaves no choice: the surviving entries are determined. */
  lemma {:induction false} EvictsToUnique(
      p: Policy, limits: Limits, es: Entries, sizes: map<nat, nat>, a: Entries, b: Entries)
    requires es.Keys == sizes.Keys
    requires EvictsTo(p, limits, es, sizes, a) && EvictsTo(p, limits, es, sizes, b)
    ensures a == b
    decreases |sizes|
  {
    hide Fits;
    hide RuleVictim;
    if !Fits(limits, sizes) && sizes != map[] {
      var v :| v in sizes && RuleVictim(p, es, v) && EvictsTo(p, limits, es - {v}, sizes - {v}, a);
      var w :| w in sizes && RuleVictim(p, es, w) && EvictsTo(p, limits, es - {w}, sizes - {w}, b);
      RuleVictimUnique(p, es, v, w);
      EvictsToUnique(p, limits, es - {v}, sizes - {v}, a, b);
    }
  }
}
