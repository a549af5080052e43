/**
 The restart-safe migration of persisted file identities to canonical ids
 (src/python/controller/controller_persist.py, driven by src/python/seedsync.py:299-302).

 JSON is a codec parameter: `encode(pair, name)` is the text of the two-element array, `decode` is
 the array a text denotes, if it denotes one of two strings. Loading what was saved gives back the
 same state.
 */
module IdentityMigration {
  import opened Options

  datatype Codec = Codec(
    encode: (string, string) -> string, decode: string -> Option<(string, string)>, isUuid: string -> bool)

  /** Decoding an encoded pair gives the pair back. */
  ghost predicate ValidCodec(c: Codec) {
    forall pair: string, name: string {:trigger c.encode(pair, name)} ::
      c.decode(c.encode(pair, name)) == Some((pair, name))
  }

  const KEY_SEP: char := '\U{001F}'

  // ---- canonical ids --------------------------------------------------------------------

  predicate IsCanonical(c: Codec, key: string) {
    var parsed := c.decode(key);
    parsed.Some? && key == c.encode(parsed.value.0, parsed.value.1)
  }

  /** str.split(KEY_SEP, 1) of a key that contains the separator. */
  function Split(key: string): (r: (string, string))
    requires KEY_SEP in key
    ensures key == r.0 + [KEY_SEP] + r.1 && KEY_SEP !in r.0
  {
    if key[0] == KEY_SEP then ("", key[1..])
    else
      var (a, b) := Split(key[1..]);
      ([key[0]] + a, b)
  }

  /** `_canonical_file_id`. */
  function Canonical(c: Codec, key: string, default: Option<string>): Option<string> {
    if IsCanonical(c, key) then Some(key)
    else if KEY_SEP in key then
      var (pair, name) := Split(key);
      if pair != "" then Some(c.encode(pair, name)) else None
    else if |key| > 37 && key[36] == ':' && c.isUuid(key[..36]) then Some(c.encode(key[..36], key[37..]))
    else if default.Some? then Some(c.encode(default.value, key)) else None
  }

  lemma {:induction false} SplitAt(pair: string, name: string)
    requires KEY_SEP !in pair
    ensures KEY_SEP in pair + [KEY_SEP] + name && Split(pair + [KEY_SEP] + name) == (pair, name)
  {
    var key := pair + [KEY_SEP] + name;
    assert key[|pair|] == KEY_SEP;
    if pair == "" {
      assert key[1..] == name;
    } else {
      SplitAt(pair[1..], name);
      assert key[1..] == pair[1..] + [KEY_SEP] + name;
      assert pair[0] in pair;
      assert [pair[0]] + pair[1..] == pair;
    }
  }

  /** The text of some pair and name. */
  ghost predicate Encoded(c: Codec, key: string) { exists pair: string, name: string :: key == c.encode(pair, name) }

  /** The id of this name in this pair: it decodes to them, in that order. */
  ghost predicate Names(c: Codec, id: Option<string>, pair: string, name: string) {
    id.Some? && c.decode(id.value) == Some((pair, name)) && id.value == c.encode(pair, name)
  }

  /** What the canonical id of each kind of spelling denotes: an id keeps its pair and name; pair, separator and name
      give that pair, unless it is empty; a UUID and a colon give that pair; a bare name gets the default pair, if
      any. */
  lemma CanonicalDenotes(c: Codec, key: string, default: Option<string>)
    requires ValidCodec(c)
    ensures forall pair: string, name: string ::
              key == c.encode(pair, name) ==>
                Canonical(c, key, default) == Some(key) && c.decode(key) == Some((pair, name))
    ensures forall pair: string, name: string ::
              !Encoded(c, key) && KEY_SEP !in pair && key == pair + [KEY_SEP] + name ==>
                if pair == "" then Canonical(c, key, default) == None
                else Names(c, Canonical(c, key, default), pair, name)
    ensures !Encoded(c, key) && KEY_SEP !in key ==>
              if |key| > 37 && key[36] == ':' && c.isUuid(key[..36])
              then Names(c, Canonical(c, key, default), key[..36], key[37..])
              else if default.Some? then Names(c, Canonical(c, key, default), default.value, key)
              else Canonical(c, key, default) == None
  {
    assert IsCanonical(c, key) ==> Encoded(c, key);
    forall pair: string, name: string | KEY_SEP !in pair && key == pair + [KEY_SEP] + name
      ensures KEY_SEP in key && Split(key) == (pair, name)
    {
      SplitAt(pair, name);
    }
  }

  /** A canonical id is canonical whatever the default pair is, so canonicalisation is idempotent. */
  lemma CanonicalIdempotent(c: Codec, key: string, default: Option<string>, other: Option<string>)
    requires ValidCodec(c) && Canonical(c, key, default).Some?
    ensures IsCanonical(c, Canonical(c, key, default).value)
    ensures Canonical(c, Canonical(c, key, default).value, other) == Canonical(c, key, default)
  {
  }

  function CanonicalSet(c: Codec, keys: set<string>, default: Option<string>): set<string> {
    set k | k in keys && Canonical(c, k, default).Some? :: Canonical(c, k, default).value
  }

  /** Adding canonical images of keys, or dropping everything else, does not change the canonical set. */
  lemma CanonicalSetStable(c: Codec, keys: set<string>, default: Option<string>)
    requires ValidCodec(c)
    ensures CanonicalSet(c, keys + CanonicalSet(c, keys, default), default) == CanonicalSet(c, keys, default)
    ensures CanonicalSet(c, CanonicalSet(c, keys, default), default) == CanonicalSet(c, keys, default)
  {
    forall k | k in CanonicalSet(c, keys, default) ensures Canonical(c, k, default) == Some(k) {
      var key :| key in keys && Canonical(c, key, default) == Some(k);
      CanonicalIdempotent(c, key, default, default);
    }
  }

  lemma CanonicalSetAdd(c: Codec, keys: set<string>, key: string, default: Option<string>)
    ensures CanonicalSet(c, keys + {key}, default) ==
            CanonicalSet(c, keys, default) + (if Canonical(c, key, default).Some?
                                              then {Canonical(c, key, default).value} else {})
  {
    hide Canonical;
  }

  // ---- counts: the largest wins ------------------------------------------------------------

  ghost predicate MaxMerged(c: Codec, default: Option<string>, counts: map<string, nat>, merged: map<string, nat>) {
    && merged.Keys == CanonicalSet(c, counts.Keys, default)
    && (forall key | key in counts && Canonical(c, key, default).Some? ::
          counts[key] <= merged[Canonical(c, key, default).value])
    && (forall k | k in merged ::
          exists key :: key in counts && Canonical(c, key, default) == Some(k) && counts[key] == merged[k])
  }

  lemma MaxMergedUnique(c: Codec, default: Option<string>, counts: map<string, nat>, a: map<string, nat>,
                        b: map<string, nat>)
    requires MaxMerged(c, default, counts, a) && MaxMerged(c, default, counts, b)
    ensures a == b
  {
    hide Canonical;
    hide CanonicalSet;
    forall k | k in a ensures a[k] == b[k] {
      var x :| x in counts && Canonical(c, x, default) == Some(k) && counts[x] == a[k];
      var y :| y in counts && Canonical(c, y, default) == Some(k) && counts[y] == b[k];
    }
  }

  function Max(a: nat, b: nat): nat { if a >= b then a else b }

  /** One iteration: the larger count is kept. */
  function Merge(merged: map<string, nat>, key: string, canonical: Option<string>, count: nat): map<string, nat> {
    if canonical.Some? then
      merged[canonical.value := Max(if canonical.value in merged then merged[canonical.value] else 0, count)]
    else merged
  }

  lemma VisitedOne<V>(m: map<string, V>, todo: set<string>, key: string)
    requires key in todo && todo <= m.Keys
    ensures m - (todo - {key}) == (m - todo)[key := m[key]]
  {
  }

  /** `_canonicalize_counts`; the dictionary is visited in an arbitrary order. */
  method CanonicalizeCounts(c: Codec, counts: map<string, nat>, default: Option<string>)
    returns (merged: map<string, nat>)
    ensures MaxMerged(c, default, counts, merged)
  {
    merged := map[];
    var todo := counts.Keys;
    assert counts - todo == map[];
    assert MaxMerged(c, default, counts - todo, merged);
    while todo != {}
      invariant todo <= counts.Keys
      invariant MaxMerged(c, default, counts - todo, merged)
    {
      var key :| key in todo;
      MergeOne(c, default, counts - todo, merged, key, counts[key]);
      VisitedOne(counts, todo, key);
      merged := Merge(merged, key, Canonical(c, key, default), counts[key]);
      todo := todo - {key};
    }
    assert counts - todo == counts;
  }

  lemma InMerged(c: Codec, default: Option<string>, counts: map<string, nat>, merged: map<string, nat>, key: string)
    requires MaxMerged(c, default, counts, merged) && key in counts && Canonical(c, key, default).Some?
    ensures Canonical(c, key, default).value in merged && counts[key] <= merged[Canonical(c, key, default).value]
  {
    hide Canonical;
  }

  lemma MergeOne(c: Codec, default: Option<string>, done: map<string, nat>, merged: map<string, nat>, key: string,
                 count: nat)
    requires key !in done && MaxMerged(c, default, done, merged)
    ensures MaxMerged(c, default, done[key := count], Merge(merged, key, Canonical(c, key, default), count))
  {
    hide Canonical;
    hide CanonicalSet;
    var canonical, done' := Canonical(c, key, default), done[key := count];
    CanonicalSetAdd(c, done.Keys, key, default);
    assert done'.Keys == done.Keys + {key};
    var merged' := Merge(merged, key, canonical, count);
    forall x | x in done' && Canonical(c, x, default).Some?
      ensures Canonical(c, x, default).value in merged' && done'[x] <= merged'[Canonical(c, x, default).value]
    {
      if x in done { InMerged(c, default, done, merged, x); }
    }
    forall k | k in merged'
      ensures exists x :: x in done' && Canonical(c, x, default) == Some(k) && done'[x] == merged'[k]
    {
      if canonical == Some(k) && merged'[k] == count {
        assert key in done' && Canonical(c, key, default) == Some(k) && done'[key] == merged'[k];
      } else {
        var x :| x in done && Canonical(c, x, default) == Some(k) && done[x] == merged[k];
        assert x in done' && done'[x] == merged'[k];
      }
    }
  }

  // ---- timestamps: an explicitly canonical key wins, then the first spelling ------------------------

  /** A dictionary with the order in which it is iterated. */
  datatype Stamps = Stamps(order: seq<string>, at: map<string, real>)

  function Elements(order: seq<string>): set<string> { set k | k in order }

  ghost predicate WellOrdered(t: Stamps) { Elements(t.order) == t.at.Keys && Distinct(t.order) }

  ghost predicate Distinct(order: seq<string>) { forall i, j | 0 <= i < j < |order| :: order[i] != order[j] }

  predicate Explicit(c: Codec, default: Option<string>, order: seq<string>, k: string) {
    k in order && Canonical(c, k, default) == Some(k)
  }

  /** Entry `i` supplies the value of id `k`: the explicit key if there is one, the first spelling otherwise. */
  ghost predicate Supplies(c: Codec, default: Option<string>, order: seq<string>, k: string, i: nat) {
    && i < |order| && Canonical(c, order[i], default) == Some(k)
    && (if Explicit(c, default, order, k) then order[i] == k
        else forall j | 0 <= j < i :: Canonical(c, order[j], default) != Some(k))
  }

  ghost predicate Chosen(c: Codec, default: Option<string>, t: Stamps, chosen: map<string, real>) {
    && (forall key | key in t.order :: key in t.at)
    && chosen.Keys == CanonicalSet(c, Elements(t.order), default)
    && (forall k | k in chosen :: exists i: nat :: Supplies(c, default, t.order, k, i) && chosen[k] == t.at[t.order[i]])
  }

  /** The order decides everything that an explicit key does not: there is one result. */
  lemma ChosenUnique(c: Codec, default: Option<string>, t: Stamps, a: map<string, real>, b: map<string, real>)
    requires Chosen(c, default, t, a) && Chosen(c, default, t, b)
    ensures a == b
  {
    hide Canonical;
    hide CanonicalSet;
    forall k | k in a ensures a[k] == b[k] {
      var i: nat :| Supplies(c, default, t.order, k, i) && a[k] == t.at[t.order[i]];
      var j: nat :| Supplies(c, default, t.order, k, j) && b[k] == t.at[t.order[j]];
      assert Explicit(c, default, t.order, k) || i == j;
    }
  }

  /** One iteration: the first spelling met is kept, unless the key is the canonical id itself. */
  function Choose(chosen: map<string, real>, key: string, canonical: Option<string>, stamp: real): map<string, real> {
    if canonical.Some? && (canonical.value !in chosen || key == canonical.value) then chosen[canonical.value := stamp]
      else chosen
  }

  /** `_canonicalize_timestamps`. */
  method CanonicalizeTimestamps(c: Codec, t: Stamps, default: Option<string>) returns (chosen: Stamps)
    requires WellOrdered(t)
    ensures WellOrdered(chosen) && Chosen(c, default, t, chosen.at)
  {
    hide Chosen;
    hide Canonical;
    hide Choose;
    chosen := Stamps([], map[]);
    NoneChosen(c, default, t);
    for i := 0 to |t.order|
      invariant WellOrdered(chosen) && Chosen(c, default, Stamps(t.order[..i], t.at), chosen.at)
    {
      var key := t.order[i];
      assert key in Elements(t.order);
      assert t.order[..i + 1] == t.order[..i] + [key];
      var canonical := Canonical(c, key, default);
      ChooseOne(c, default, Stamps(t.order[..i], t.at), chosen.at, key);
      KeysChosen(chosen, key, canonical, t.at[key]);
      var order := if canonical.Some? && canonical.value !in chosen.at then chosen.order + [canonical.value]
        else chosen.order;
      chosen := Stamps(order, Choose(chosen.at, key, canonical, t.at[key]));
    }
    assert t.order[..|t.order|] == t.order;
  }

  lemma KeysChosen(chosen: Stamps, key: string, canonical: Option<string>, stamp: real)
    requires WellOrdered(chosen)
    ensures var unseen := canonical.Some? && canonical.value !in chosen.at;
            WellOrdered(Stamps(if unseen then chosen.order + [canonical.value] else chosen.order,
                               Choose(chosen.at, key, canonical, stamp)))
  {
    if canonical.Some? {
      assert Elements(chosen.order + [canonical.value]) == Elements(chosen.order) + {canonical.value};
      assert forall i | 0 <= i < |chosen.order| :: chosen.order[i] in Elements(chosen.order);
    }
  }

  lemma NoneChosen(c: Codec, default: Option<string>, t: Stamps)
    ensures Chosen(c, default, Stamps(t.order[..0], t.at), map[])
  {
  }

  /** One more entry keeps the description exact. */
  lemma ChooseOne(c: Codec, default: Option<string>, t: Stamps, chosen: map<string, real>, key: string)
    requires key in t.at && Chosen(c, default, t, chosen)
    ensures Chosen(c, default, Stamps(t.order + [key], t.at),
                   Choose(chosen, key, Canonical(c, key, default), t.at[key]))
  {
    hide Canonical;
    var more, chosen' := t.order + [key], Choose(chosen, key, Canonical(c, key, default), t.at[key]);
    CanonicalSetAdd(c, Elements(t.order), key, default);
    assert Elements(more) == Elements(t.order) + {key};
    forall k | k in chosen' ensures exists i: nat :: Supplies(c, default, more, k, i) && chosen'[k] == t.at[more[i]] {
      var i := ChooseOneId(c, default, t, chosen, key, k);
    }
  }

  lemma ChooseOneId(c: Codec, default: Option<string>, t: Stamps, chosen: map<string, real>, key: string, k: string)
    returns (i: nat)
    requires key in t.at && Chosen(c, default, t, chosen)
    requires k in Choose(chosen, key, Canonical(c, key, default), t.at[key])
    ensures var more := t.order + [key];
            Supplies(c, default, more, k, i) && i < |more| && more[i] in t.at &&
            Choose(chosen, key, Canonical(c, key, default), t.at[key])[k] == t.at[more[i]]
  {
    hide Canonical;
    var more := t.order + [key];
    if Canonical(c, key, default) == Some(k) && (k !in chosen || key == k) {
      i := |t.order|;
      if key != k {
        forall j | 0 <= j < i ensures Canonical(c, more[j], default) != Some(k) {
          assert more[j] in Elements(t.order);
        }
        assert k in more ==> k in Elements(t.order);
      }
    } else {
      i :| Supplies(c, default, t.order, k, i) && chosen[k] == t.at[t.order[i]];
      assert forall j | 0 <= j <= i :: more[j] == t.order[j];
    }
  }

  // ---- the two phases -------------------------------------------------------------------------

  datatype Snapshot = Snapshot(
    downloaded: set<string>, extracted: set<string>, stopped: set<string>, finalMoved: set<string>,
    counts: map<string, nat>, stamps: Stamps, phase: nat)

  function MaxUpdate(a: map<string, nat>, b: map<string, nat>): map<string, nat> {
    map k | k in a.Keys + b.Keys :: Max(if k in a then a[k] else 0, if k in b then b[k] else 0)
  }

  /** Phase one: legacy plus canonical. */
  ghost predicate Expanded(c: Codec, d: Option<string>, o: Snapshot, s: Snapshot) {
    && s.phase == 1
    && s.downloaded == o.downloaded + CanonicalSet(c, o.downloaded, d)
    && s.extracted == o.extracted + CanonicalSet(c, o.extracted, d)
    && s.stopped == o.stopped + CanonicalSet(c, o.stopped, d)
    && s.finalMoved == o.finalMoved + CanonicalSet(c, o.finalMoved, d)
    && (exists merged :: MaxMerged(c, d, o.counts, merged) && s.counts == MaxUpdate(o.counts, merged))
    && WellOrdered(o.stamps) && WellOrdered(s.stamps)
    && (exists chosen :: Chosen(c, d, o.stamps, chosen) && s.stamps.at == o.stamps.at + chosen)
  }

  /** Phase two: exactly the canonicalisation. */
  ghost predicate Canonicalized(c: Codec, d: Option<string>, o: Snapshot, s: Snapshot) {
    && s.phase == 2
    && s.downloaded == CanonicalSet(c, o.downloaded, d)
    && s.extracted == CanonicalSet(c, o.extracted, d)
    && s.stopped == CanonicalSet(c, o.stopped, d)
    && s.finalMoved == CanonicalSet(c, o.finalMoved, d)
    && MaxMerged(c, d, o.counts, s.counts)
    && WellOrdered(s.stamps) && Chosen(c, d, o.stamps, s.stamps.at)
  }

  /** One call of `canonicalize_file_identities`. */
  ghost predicate PhaseStep(c: Codec, d: Option<string>, s: Snapshot, s': Snapshot, again: bool) {
    if s.phase >= 2 then s' == s && !again
    else again && if s.phase == 0 then Expanded(c, d, s, s') else Canonicalized(c, d, s, s')
  }

  /** The keys that are not among `known`, in order. */
  function Missing(order: seq<string>, known: set<string>): (r: seq<string>)
    ensures Elements(r) == Elements(order) - known
    ensures Distinct(order) ==> Distinct(r)
  {
    if order == [] then []
    else
      var before, last := Missing(order[..|order| - 1], known), order[|order| - 1];
      assert Elements(order) == Elements(order[..|order| - 1]) + {last};
      assert Elements(before + [last]) == Elements(before) + {last};
      assert Distinct(order) ==> last !in order[..|order| - 1];
      assert last !in Elements(before) ==> last !in before;
      if last in known then before else before + [last]
  }

  /** dict.update: old keys keep their place, new keys follow. */
  function Updated(t: Stamps, more: Stamps): (u: Stamps)
    requires WellOrdered(t) && WellOrdered(more)
    ensures WellOrdered(u) && u.at == t.at + more.at && t.order <= u.order
  {
    var unseen := Missing(more.order, t.at.Keys);
    assert Elements(t.order + unseen) == Elements(t.order) + Elements(unseen);
    assert forall i, j | 0 <= i < |t.order| && 0 <= j < |unseen| ::
             t.order[i] in Elements(t.order) && unseen[j] in Elements(unseen);
    Stamps(t.order + unseen, t.at + more.at)
  }

  class ControllerPersist {
    var downloaded: set<string>
    var extracted: set<string>
    var stopped: set<string>
    var finalMoved: set<string>
    var counts: map<string, nat>
    var stamps: Stamps
    var phase: nat

    function Snap(): Snapshot
      reads this
    {
      Snapshot(downloaded, extracted, stopped, finalMoved, counts, stamps, phase)
    }

    ghost predicate Valid()
      reads this
    {
      WellOrdered(stamps)
    }

    constructor (s: Snapshot)
      requires WellOrdered(s.stamps)
      ensures Valid() && Snap() == s
    {
      downloaded, extracted, stopped, finalMoved := s.downloaded, s.extracted, s.stopped, s.finalMoved;
      counts, stamps, phase := s.counts, s.stamps, s.phase;
    }

    /** `canonicalize_file_identities`. */
    method CanonicalizeFileIdentities(c: Codec, d: Option<string>) returns (again: bool)
      requires Valid()
      modifies this
      ensures Valid() && PhaseStep(c, d, old(Snap()), Snap(), again)
    {
      hide CanonicalSet;
      hide MaxMerged;
      hide Chosen;
      if phase >= 2 {
        return false;
      }
      var merged := CanonicalizeCounts(c, counts, d);
      var chosen := CanonicalizeTimestamps(c, stamps, d);
      if phase == 0 {
        downloaded := downloaded + CanonicalSet(c, downloaded, d);
        stamps := Updated(stamps, chosen);
        extracted := extracted + CanonicalSet(c, extracted, d);
        stopped := stopped + CanonicalSet(c, stopped, d);
        finalMoved := finalMoved + CanonicalSet(c, finalMoved, d);
        counts := MaxUpdate(counts, merged);
        phase := 1;
        return true;
      }
      downloaded, extracted := CanonicalSet(c, downloaded, d), CanonicalSet(c, extracted, d);
      stamps := chosen;
      stopped, finalMoved := CanonicalSet(c, stopped, d), CanonicalSet(c, finalMoved, d);
      counts, phase := merged, 2;
      again := true;
    }
  }

  // ---- expanding first changes nothing in the end ------------------------------------------------

  lemma MaxUpdateKeys(a: map<string, nat>, b: map<string, nat>)
    ensures MaxUpdate(a, b).Keys == a.Keys + b.Keys
  {
  }

  lemma MergedKeys(c: Codec, d: Option<string>, counts: map<string, nat>, merged: map<string, nat>)
    requires MaxMerged(c, d, counts, merged)
    ensures merged.Keys == CanonicalSet(c, counts.Keys, d)
  {
  }

  lemma ChosenKeys(c: Codec, d: Option<string>, stamps: Stamps, chosen: map<string, real>)
    requires WellOrdered(stamps) && Chosen(c, d, stamps, chosen)
    ensures chosen.Keys == CanonicalSet(c, stamps.at.Keys, d)
  {
  }

  /** Counting the widened dictionary gives the counts of the original one. */
  lemma ExpandedCounts(c: Codec, d: Option<string>, counts: map<string, nat>, merged: map<string, nat>,
                       final: map<string, nat>)
    requires ValidCodec(c) && MaxMerged(c, d, counts, merged) && MaxMerged(c, d, MaxUpdate(counts, merged), final)
    ensures final == merged
  {
    hide *;
    assert final.Keys == merged.Keys by {
      MergedKeys(c, d, counts, merged);
      MergedKeys(c, d, MaxUpdate(counts, merged), final);
      MaxUpdateKeys(counts, merged);
      CanonicalSetStable(c, counts.Keys, d);
    }
    forall k | k in merged ensures final[k] == merged[k] {
      ExpandedCount(c, d, counts, merged, final, k);
    }
  }

  lemma ExpandedCount(c: Codec, d: Option<string>, counts: map<string, nat>, merged: map<string, nat>,
                      final: map<string, nat>, k: string)
    requires ValidCodec(c) && MaxMerged(c, d, counts, merged) && MaxMerged(c, d, MaxUpdate(counts, merged), final)
    requires k in merged && k in final
    ensures final[k] == merged[k]
  {
    hide Canonical;
    hide CanonicalSet;
    MergedIsFixed(c, d, counts, merged, k);
    var x :| x in MaxUpdate(counts, merged) && Canonical(c, x, d) == Some(k) &&
      MaxUpdate(counts, merged)[x] == final[k];
    MergedIsFixed(c, d, counts, merged, x);
  }

  /** A key of the widened counts stays below the merged count of its canonical id; a merged key is its own id. */
  lemma MergedIsFixed(c: Codec, d: Option<string>, counts: map<string, nat>, merged: map<string, nat>, key: string)
    requires ValidCodec(c) && MaxMerged(c, d, counts, merged) && key in MaxUpdate(counts, merged)
    ensures key in merged ==> Canonical(c, key, d) == Some(key) && MaxUpdate(counts, merged)[key] == merged[key]
    ensures Canonical(c, key, d).Some? ==>
              Canonical(c, key, d).value in merged &&
              MaxUpdate(counts, merged)[key] <= merged[Canonical(c, key, d).value]
  {
    if key in merged {
      FromCounts(c, d, counts, merged, key);
    }
  }

  lemma FromCounts(c: Codec, d: Option<string>, counts: map<string, nat>, merged: map<string, nat>, key: string)
    requires ValidCodec(c) && MaxMerged(c, d, counts, merged) && key in merged
    ensures Canonical(c, key, d) == Some(key)
  {
    hide Canonical;
    var x :| x in counts && Canonical(c, x, d) == Some(key) && counts[x] == merged[key];
    CanonicalIdempotent(c, x, d, d);
  }

  /** Choosing again from the widened timestamps gives the first choice: every chosen key is now an explicit one. */
  lemma ExpandedStamps(c: Codec, d: Option<string>, stamps: Stamps, chosen: map<string, real>, wide: Stamps,
                       final: map<string, real>)
    requires ValidCodec(c) && WellOrdered(stamps) && WellOrdered(wide) && wide.at == stamps.at + chosen
    requires Chosen(c, d, stamps, chosen) && Chosen(c, d, wide, final)
    ensures final == chosen
  {
    hide *;
    assert final.Keys == chosen.Keys by {
      ChosenKeys(c, d, stamps, chosen);
      ChosenKeys(c, d, wide, final);
      assert (stamps.at + chosen).Keys == stamps.at.Keys + chosen.Keys;
      CanonicalSetStable(c, stamps.at.Keys, d);
    }
    forall k | k in chosen ensures final[k] == chosen[k] {
      ExpandedStamp(c, d, stamps, chosen, wide, final, k);
    }
  }

  lemma ExpandedStamp(c: Codec, d: Option<string>, stamps: Stamps, chosen: map<string, real>, wide: Stamps,
                      final: map<string, real>, k: string)
    requires ValidCodec(c) && WellOrdered(wide) && wide.at == stamps.at + chosen
    requires Chosen(c, d, stamps, chosen) && Chosen(c, d, wide, final) && k in chosen && k in final
    ensures final[k] == chosen[k]
  {
    hide Canonical;
    hide CanonicalSet;
    hide ValidCodec;
    var i: nat :| Supplies(c, d, stamps.order, k, i) && chosen[k] == stamps.at[stamps.order[i]];
    CanonicalIdempotent(c, stamps.order[i], d, d);
    assert k in wide.at && k in Elements(wide.order);
    assert Explicit(c, d, wide.order, k);
    var j: nat :| Supplies(c, d, wide.order, k, j) && final[k] == wide.at[wide.order[j]];
  }

  /** Phase one loses no count: every legacy and canonical key is there, no count shrinks, and a key that is no
      canonical id keeps its own. */
  lemma PhaseOneCounts(c: Codec, d: Option<string>, o: Snapshot, s: Snapshot)
    requires Expanded(c, d, o, s)
    ensures s.counts.Keys == o.counts.Keys + CanonicalSet(c, o.counts.Keys, d)
    ensures forall k | k in o.counts :: s.counts[k] >= o.counts[k]
    ensures forall k | k in o.counts && k !in CanonicalSet(c, o.counts.Keys, d) :: s.counts[k] == o.counts[k]
  {
    hide Canonical;
    hide CanonicalSet;
    hide MaxMerged;
    hide Chosen;
    hide WellOrdered;
    var merged :| MaxMerged(c, d, o.counts, merged) && s.counts == MaxUpdate(o.counts, merged);
    MergedKeys(c, d, o.counts, merged);
  }

  /** Nor a timestamp: a key that is no canonical id keeps its own. */
  lemma PhaseOneStamps(c: Codec, d: Option<string>, o: Snapshot, s: Snapshot)
    requires Expanded(c, d, o, s)
    ensures s.stamps.at.Keys == o.stamps.at.Keys + CanonicalSet(c, o.stamps.at.Keys, d)
    ensures forall k | k in o.stamps.at && k !in CanonicalSet(c, o.stamps.at.Keys, d) ::
              s.stamps.at[k] == o.stamps.at[k]
  {
    hide Canonical;
    hide CanonicalSet;
    hide MaxMerged;
    hide MaxUpdate;
    hide Chosen;
    hide WellOrdered;
    var chosen :| Chosen(c, d, o.stamps, chosen) && s.stamps.at == o.stamps.at + chosen;
    ChosenKeys(c, d, o.stamps, chosen);
  }

  /** Phase one then phase two is exactly the canonicalisation of the original. */
  lemma TwoPhases(c: Codec, d: Option<string>, o: Snapshot, s: Snapshot, f: Snapshot)
    requires ValidCodec(c) && Expanded(c, d, o, s) && Canonicalized(c, d, s, f)
    ensures Canonicalized(c, d, o, f)
  {
    CanonicalSetStable(c, o.downloaded, d);
    CanonicalSetStable(c, o.extracted, d);
    CanonicalSetStable(c, o.stopped, d);
    CanonicalSetStable(c, o.finalMoved, d);
    var merged :| MaxMerged(c, d, o.counts, merged) && s.counts == MaxUpdate(o.counts, merged);
    ExpandedCounts(c, d, o.counts, merged, f.counts);
    var chosen :| Chosen(c, d, o.stamps, chosen) && s.stamps.at == o.stamps.at + chosen;
    ExpandedStamps(c, d, o.stamps, chosen, s.stamps, f.stamps.at);
  }

  // ---- crashes and restarts ---------------------------------------------------------------------

  /** The file on disk and, while the process runs, its memory and whether the last phase awaits `to_file`. */
  datatype System = System(disk: Snapshot, memory: Option<Snapshot>, unsaved: bool)

  /** Load, run a phase, save it atomically, or die at any moment. */
  ghost predicate Next(c: Codec, d: Option<string>, a: System, b: System) {
    || (a.memory == None && b == System(a.disk, Some(a.disk), false))
    || (a.memory.Some? && !a.unsaved && b.memory.Some? && b.disk == a.disk &&
        PhaseStep(c, d, a.memory.value, b.memory.value, b.unsaved))
    || (a.memory.Some? && a.unsaved && b == System(a.memory.value, a.memory, false))
    || b == System(a.disk, None, false)
  }

  ghost predicate Run(c: Codec, d: Option<string>, trace: seq<System>) {
    trace != [] && forall i | 0 <= i < |trace| - 1 :: Next(c, d, trace[i], trace[i + 1])
  }

  /** Every state a schedule can produce: untouched, expanded, or fully canonical. */
  ghost predicate OnTrack(c: Codec, d: Option<string>, o: Snapshot, s: Snapshot) {
    || s == o
    || (o.phase == 0 && Expanded(c, d, o, s))
    || (o.phase < 2 && Canonicalized(c, d, o, s))
  }

  lemma StepOnTrack(c: Codec, d: Option<string>, o: Snapshot, s: Snapshot, s': Snapshot, again: bool)
    requires ValidCodec(c) && OnTrack(c, d, o, s) && PhaseStep(c, d, s, s', again)
    ensures OnTrack(c, d, o, s')
  {
    hide CanonicalSet;
    hide MaxMerged;
    hide Chosen;
    if o.phase == 0 && s.phase == 1 && Expanded(c, d, o, s) && Canonicalized(c, d, s, s') {
      TwoPhases(c, d, o, s, s');
    }
  }

  lemma {:induction false} RunOnTrack(c: Codec, d: Option<string>, trace: seq<System>)
    requires ValidCodec(c) && Run(c, d, trace) && trace[0].memory == None
    ensures var t, o := trace[|trace| - 1], trace[0].disk;
            OnTrack(c, d, o, t.disk) && (t.memory.Some? ==> OnTrack(c, d, o, t.memory.value))
    decreases |trace|
  {
    hide CanonicalSet;
    hide OnTrack;
    var n := |trace| - 1;
    if n == 0 {
      SameOnTrack(c, d, trace[0].disk);
    } else {
      RunOnTrack(c, d, trace[..n]);
      assert Next(c, d, trace[n - 1], trace[n]);
      NextOnTrack(c, d, trace[0].disk, trace[n - 1], trace[n]);
    }
  }

  lemma SameOnTrack(c: Codec, d: Option<string>, o: Snapshot)
    ensures OnTrack(c, d, o, o)
  {
  }

  lemma NextOnTrack(c: Codec, d: Option<string>, o: Snapshot, a: System, b: System)
    requires ValidCodec(c) && Next(c, d, a, b)
    requires OnTrack(c, d, o, a.disk) && (a.memory.Some? ==> OnTrack(c, d, o, a.memory.value))
    ensures OnTrack(c, d, o, b.disk) && (b.memory.Some? ==> OnTrack(c, d, o, b.memory.value))
  {
    hide OnTrack;
    if a.memory.Some? && b.memory.Some? && PhaseStep(c, d, a.memory.value, b.memory.value, b.unsaved) {
      StepOnTrack(c, d, o, a.memory.value, b.memory.value, b.unsaved);
    }
  }

  /** Whatever the schedule of crashes and restarts, a finished migration holds exactly the canonicalisation of what
      was on disk at the start. */
  lemma RestartSafe(c: Codec, d: Option<string>, trace: seq<System>)
    requires ValidCodec(c) && Run(c, d, trace) && trace[0].memory == None && trace[0].disk.phase < 2
    requires trace[|trace| - 1].disk.phase == 2
    ensures Canonicalized(c, d, trace[0].disk, trace[|trace| - 1].disk)
  {
    RunOnTrack(c, d, trace);
  }

  /** So the schedule does not matter: two migrations of one state end alike, apart from the order of a dictionary. */
  lemma SchedulesAgree(c: Codec, d: Option<string>, one: seq<System>, other: seq<System>)
    requires ValidCodec(c) && Run(c, d, one) && Run(c, d, other) && one[0].memory == None && other[0].memory == None
    requires one[0].disk == other[0].disk && one[0].disk.phase < 2
    requires one[|one| - 1].disk.phase == 2 && other[|other| - 1].disk.phase == 2
    ensures var a, b := one[|one| - 1].disk, other[|other| - 1].disk;
            a.stamps.at == b.stamps.at && a == b.(stamps := a.stamps)
  {
    hide CanonicalSet;
    hide MaxMerged;
    hide Chosen;
    RestartSafe(c, d, one);
    RestartSafe(c, d, other);
    var o, a, b := one[0].disk, one[|one| - 1].disk, other[|other| - 1].disk;
    MaxMergedUnique(c, d, o.counts, a.counts, b.counts);
    ChosenUnique(c, d, o.stamps, a.stamps.at, b.stamps.at);
  }

  /** The driver loop calls at most two phases that ask to be saved. */
  lemma AtMostTwoPhases(c: Codec, d: Option<string>, s0: Snapshot, s1: Snapshot, s2: Snapshot, s3: Snapshot,
                        a0: bool, a1: bool, a2: bool)
    requires PhaseStep(c, d, s0, s1, a0) && PhaseStep(c, d, s1, s2, a1) && PhaseStep(c, d, s2, s3, a2)
    ensures !a2 && s3 == s2 && s2.phase >= 2
  {
    hide CanonicalSet;
    hide MaxMerged;
    hide Chosen;
  }

  /** The driver loop at startup: it saves after every phase, twice at most, and the last save is the result. */
  method MigrateAtStartup(persist: ControllerPersist, c: Codec, d: Option<string>, stored: Snapshot)
    returns (disk: Snapshot, saves: nat)
    requires ValidCodec(c) && persist.Valid() && persist.Snap() == stored
    modifies persist
    ensures persist.Valid()
    ensures saves == if stored.phase >= 2 then 0 else 2 - stored.phase
    ensures disk == persist.Snap() && disk.phase >= 2
    ensures if stored.phase >= 2 then disk == stored else Canonicalized(c, d, stored, disk)
  {
    hide Expanded;
    hide Canonicalized;
    hide ValidCodec;
    disk, saves := stored, 0;
    SameOnTrack(c, d, stored);
    var again := true;
    while again
      invariant persist.Valid() && disk == persist.Snap() && OnTrack(c, d, stored, disk)
      invariant if disk.phase >= 2 then saves == (if stored.phase >= 2 then 0 else 2 - stored.phase)
                else saves + stored.phase == disk.phase
      invariant !again ==> disk.phase >= 2
      decreases 2 - disk.phase, again
    {
      again := persist.CanonicalizeFileIdentities(c, d);
      StepOnTrack(c, d, stored, disk, persist.Snap(), again);
      PhaseAdvances(c, d, disk, persist.Snap(), again);
      if again {
        disk, saves := persist.Snap(), saves + 1;
      }
    }
    FinishedOnTrack(c, d, stored, disk);
  }

  lemma PhaseAdvances(c: Codec, d: Option<string>, s: Snapshot, s': Snapshot, again: bool)
    requires PhaseStep(c, d, s, s', again)
    ensures if again then s'.phase == s.phase + 1 <= 2 else s' == s && s.phase >= 2
  {
    hide CanonicalSet;
    hide MaxMerged;
    hide Chosen;
  }

  lemma FinishedOnTrack(c: Codec, d: Option<string>, o: Snapshot, s: Snapshot)
    requires OnTrack(c, d, o, s) && s.phase >= 2
    ensures if o.phase >= 2 then s == o else Canonicalized(c, d, o, s)
  {
    hide CanonicalSet;
    hide MaxMerged;
    hide Chosen;
  }
}
