/**
 The exact object-id set of the ownership census: open addressing with linear probing in a raw
 array whose length is a power of two (_CompactIdSet in src/python/controller/ownership_census.py).
 Masking with length - 1 is the remainder by the length; 64-bit truncation is written out.
 */
module CompactIdSet {

  const INITIAL_CAPACITY: nat := 1024
  const MIX: nat := 11400714819323198485
  const WORD: nat := 0x1_0000_0000_0000_0000

  predicate PowerOfTwo(n: nat) { n == 1 || (n > 0 && n % 2 == 0 && PowerOfTwo(n / 2)) }

  /** The home slot: drop the aligned low bits, mix in 64 bits, mask. */
  function Home(value: nat, capacity: nat): (h: nat)
    requires capacity > 0
    ensures h < capacity
  {
    ((value / 16) * MIX % WORD) % capacity
  }

  /** The slot `k` probes after `home`, wrapping around. */
  function At(home: nat, k: nat, capacity: nat): (i: nat)
    requires home < capacity && k < capacity
    ensures i < capacity
  {
    if home + k < capacity then home + k else home + k - capacity
  }

  /** How many probes after `home` slot `i` comes. */
  function Distance(home: nat, i: nat, capacity: nat): (k: nat)
    requires home < capacity && i < capacity
    ensures k < capacity && At(home, k, capacity) == i
  {
    if i >= home then i - home else i + capacity - home
  }

  // ---- tables as sequences ---------------------------------------------------------

  function Members(s: seq<nat>): set<nat> { set x | x in s && x != 0 }

  /** No id twice, and no empty slot between an id's home and its place. */
  ghost predicate TableInv(s: seq<nat>) {
    && s != []
    && (forall i, j | 0 <= i < j < |s| && s[i] != 0 :: s[i] != s[j])
    && (forall i | 0 <= i < |s| && s[i] != 0 :: Chained(s, s[i], Distance(Home(s[i], |s|), i, |s|)))
  }

  /** The first `n` slots probed for `v` are all occupied. */
  ghost predicate Chained(s: seq<nat>, v: nat, n: nat)
    requires s != [] && n <= |s|
  {
    forall k | 0 <= k < n :: s[At(Home(v, |s|), k, |s|)] != 0
  }

  /** The first `n` slots probed for `v` are occupied by other ids. */
  ghost predicate Missed(s: seq<nat>, v: nat, n: nat)
    requires s != [] && n <= |s|
  {
    forall k | 0 <= k < n :: s[At(Home(v, |s|), k, |s|)] != 0 && s[At(Home(v, |s|), k, |s|)] != v
  }

  /** Reaching an empty slot proves absence. */
  lemma EmptyMeansAbsent(s: seq<nat>, v: nat, n: nat)
    requires TableInv(s) && v != 0 && n < |s| && Missed(s, v, n) && s[At(Home(v, |s|), n, |s|)] == 0
    ensures v !in s
  {
    forall i | 0 <= i < |s| ensures s[i] != v {
      var d := Distance(Home(v, |s|), i, |s|);
      assert d < n ==> s[At(Home(v, |s|), d, |s|)] != v;
      assert s[i] != 0 ==> Chained(s, s[i], Distance(Home(s[i], |s|), i, |s|));
    }
  }

  /** A table with an empty slot cannot be probed all the way round. */
  lemma ProbeEnds(s: seq<nat>, v: nat, e: nat)
    requires s != [] && e < |s| && s[e] == 0
    ensures !Missed(s, v, |s|)
  {
    var d := Distance(Home(v, |s|), e, |s|);
    assert s[At(Home(v, |s|), d, |s|)] == 0;
  }

  lemma StoreKeepsTable(s: seq<nat>, v: nat, n: nat)
    requires TableInv(s) && v != 0 && v !in s && n < |s| && Missed(s, v, n) && s[At(Home(v, |s|), n, |s|)] == 0
    ensures var t := s[At(Home(v, |s|), n, |s|) := v]; TableInv(t) && Members(t) == Members(s) + {v}
  {
    var p := At(Home(v, |s|), n, |s|);
    var t := s[p := v];
    assert Distance(Home(v, |s|), p, |s|) == n;
    forall i | 0 <= i < |t| && t[i] != 0 ensures Chained(t, t[i], Distance(Home(t[i], |t|), i, |t|)) {
      if i != p { assert Chained(s, s[i], Distance(Home(s[i], |s|), i, |s|)); }
    }
    assert t[p] == v && forall x | x in s && x != 0 :: x in t by {
      forall x | x in s && x != 0 ensures x in t {
        var i :| 0 <= i < |s| && s[i] == x;
        assert t[i] == x;
      }
    }
  }

  /** Fewer ids than slots leave an empty slot. */
  lemma {:induction false} HasEmptySlot(s: seq<nat>) returns (e: nat)
    requires |Members(s)| < |s|
    requires forall i, j | 0 <= i < j < |s| && s[i] != 0 :: s[i] != s[j]
    ensures e < |s| && s[e] == 0
    decreases |s|
  {
    var n := |s| - 1;
    if s[n] == 0 {
      e := n;
    } else {
      var shorter := s[..n];
      assert s == shorter + [s[n]];
      assert Members(s) == Members(shorter) + {s[n]};
      assert s[n] !in Members(shorter);
      e := HasEmptySlot(shorter);
    }
  }

  class IdSet {
    var slots: array<nat>
    var size: nat

    ghost predicate Valid()
      reads this, slots
    {
      && TableInv(slots[..]) && size == |Members(slots[..])|
      && slots.Length >= INITIAL_CAPACITY && PowerOfTwo(slots.Length)
      && size * 10 < slots.Length * 7 + 10
    }

    ghost function Contents(): set<nat>
      reads this, slots
    {
      Members(slots[..])
    }

    constructor ()
      ensures Valid() && Contents() == {} && fresh(slots)
    {
      size := 0;
      slots := new nat[INITIAL_CAPACITY](_ => 0);
    }

    /** The probe loop of `__contains__` and `add_if_absent`: it always ends, at the id or at an empty slot. */
    method Probe(v: nat) returns (index: nat, found: bool, ghost n: nat)
      requires Valid() && v != 0
      ensures index < slots.Length && n < slots.Length && index == At(Home(v, slots.Length), n, slots.Length)
      ensures Missed(slots[..], v, n) && slots[index] == (if found then v else 0)
      ensures found <==> v in Contents()
    {
      var s := slots[..];
      index, n := Home(v, slots.Length), 0;
      ghost var e := HasEmptySlot(s);
      while slots[index] != 0 && slots[index] != v
        invariant n < slots.Length && index == At(Home(v, slots.Length), n, slots.Length)
        invariant Missed(s, v, n)
        decreases slots.Length - n
      {
        n := n + 1;
        if n == slots.Length { ProbeEnds(s, v, e); assert false; }
        index := if index + 1 < slots.Length then index + 1 else 0;
      }
      found := slots[index] == v;
      if found { assert s[index] == v; } else { EmptyMeansAbsent(s, v, n); }
    }

    /** `__contains__`. */
    method Contains(v: nat) returns (r: bool)
      requires Valid() && v != 0
      ensures r <==> v in Contents()
    {
      var index, found, n := Probe(v);
      r := found;
    }

    /** `release`. */
    method Release()
      modifies this
      ensures Valid() && Contents() == {} && fresh(slots)
    {
      slots := new nat[INITIAL_CAPACITY](_ => 0);
      size := 0;
    }

    predicate Crowded()
      reads this, slots
    {
      size * 10 >= slots.Length * 7
    }

    /** `add_if_absent`. */
    method AddIfAbsent(v: nat) returns (added: bool)
      requires Valid() && v != 0
      modifies this, slots
      ensures Valid() && Contents() == old(Contents()) + {v}
      ensures added <==> v !in old(Contents())
      ensures if old(Crowded()) then fresh(slots) else slots == old(slots)
      decreases if Crowded() then 2 else 0
    {
      if size * 10 >= slots.Length * 7 {
        Resize(slots.Length * 2);
      }
      var index, found, n := Probe(v);
      if found {
        return false;
      }
      StoreKeepsTable(slots[..], v, n);
      slots[index] := v;
      size := size + 1;
      added := true;
    }

    /** `__resize`: re-insertion into the doubled table never needs another resize. */
    method Resize(capacity: nat)
      requires Valid() && Crowded() && capacity == slots.Length * 2
      modifies this
      ensures Valid() && Contents() == old(Contents()) && fresh(slots) && slots.Length == capacity && !Crowded()
      decreases 1
    {
      hide TableInv;
      var previous := slots;
      ghost var before := previous[..];
      slots := new nat[capacity](_ => 0);
      size := 0;
      EmptyTable(slots[..]);
      for i := 0 to previous.Length
        invariant Valid() && fresh(slots) && slots.Length == capacity && previous[..] == before
        invariant Contents() == Members(before[..i]) && size <= i
      {
        MembersNext(before, i);
        if previous[i] != 0 {
          var added := AddIfAbsent(previous[i]);
        }
      }
      assert before[..previous.Length] == before;
    }
  }

  lemma EmptyTable(s: seq<nat>)
    requires s != [] && forall i | 0 <= i < |s| :: s[i] == 0
    ensures TableInv(s) && Members(s) == {}
  {
  }

  lemma MembersNext(s: seq<nat>, i: nat)
    requires i < |s|
    ensures Members(s[..i + 1]) == if s[i] == 0 then Members(s[..i]) else Members(s[..i]) + {s[i]}
  {
    assert s[..i + 1] == s[..i] + [s[i]];
  }
}
