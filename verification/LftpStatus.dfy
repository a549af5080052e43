/**
 Coverage of a partial download from an LFTP pget status sidecar, parsed twice in the source:
 by the controller (parse_lftp_pget_status in src/python/common/lftp_status.py) and by the remote
 scanner (SystemScanner._lftp_status_file_size in src/python/scan_fs.py).

 A status is its list of stripped non-blank lines, each already matched against the three line
 patterns; a decimal too long for Python's int is a number without a value.
 */
module LftpStatus {
  import opened Options

  datatype Line =
    | SizeLine(size: Option<nat>)
    | PosLine(segment: Option<nat>, pos: Option<nat>)
    | LimitLine(segment: Option<nat>, limit: Option<nat>)
    | OtherLine

  datatype Status = Status(total: nat, covered: nat, baseOnly: bool)

  datatype Range = Range(pos: nat, limit: nat)

  const MAX_SEGMENTS: nat := 256

  // ---- what an acceptable status means --------------------------------------------------

  predicate Overlap(a: Range, b: Range) { b.pos < a.limit && a.pos < b.limit }

  /** The k-th position/limit pair of a segment map, if it is well-formed and lies within the file. */
  function PairAt(total: nat, rest: seq<Line>, k: nat): Option<Range>
    requires 2 * k + 1 < |rest|
  {
    match (rest[2 * k], rest[2 * k + 1])
    case (PosLine(Some(i), Some(pos)), LimitLine(Some(j), Some(limit))) =>
      if i == k && j == k && pos <= limit <= total then Some(Range(pos, limit)) else None
    case _ => None
  }

  /** The holes of a segment map: every pair well-formed and no two overlapping. */
  function HolesUpTo(total: nat, rest: seq<Line>, n: nat): Option<seq<Range>>
    requires 2 * n <= |rest|
  {
    if n == 0 then Some([])
    else
      var before, pair := HolesUpTo(total, rest, n - 1), PairAt(total, rest, n - 1);
      if before == None || pair == None || exists r | r in before.value :: Overlap(r, pair.value) then None
      else Some(before.value + [pair.value])
  }

  predicate InRange(r: Range, x: nat) { r.pos <= x < r.limit }

  predicate InHole(holes: seq<Range>, x: nat) { exists r | r in holes :: InRange(r, x) }

  /** The offsets from `a` up to `b`. */
  function Offsets(a: nat, b: nat): (s: set<nat>)
    ensures forall x :: x in s <==> a <= x < b
    ensures |s| == if a <= b then b - a else 0
    decreases b
  {
    if a >= b then {} else Offsets(a, b - 1) + {b - 1}
  }

  /** The offsets of the file that lie in no hole. */
  function Covered(total: nat, holes: seq<Range>): set<nat> { set x | x in Offsets(0, total) && !InHole(holes, x) }

  /** What a status says, stated without the parsers' running sums. */
  function Meaning(oversized: bool, lines: seq<Line>): Option<Status> {
    if oversized || lines == [] || !lines[0].SizeLine? || lines[0].size == None then None
    else
      var total, rest := lines[0].size.value, lines[1..];
      if |rest| == 1 then
        match rest[0]
        case PosLine(Some(i), Some(pos)) => if i == 0 && pos <= total then Some(Status(total, pos, true)) else None
        case _ => None
      else if rest == [] || |rest| % 2 != 0 || |rest| / 2 > MAX_SEGMENTS then None
      else
        var holes := HolesUpTo(total, rest, |rest| / 2);
        if holes == None then None else Some(Status(total, |Covered(total, holes.value)|, false))
  }

  // ---- arithmetic of disjoint holes -------------------------------------------------------

  function HoleSet(holes: seq<Range>): set<nat> {
    if holes == [] then {}
    else HoleSet(holes[..|holes| - 1]) + Offsets(holes[|holes| - 1].pos, holes[|holes| - 1].limit)
  }

  lemma {:induction false} HoleSetIs(holes: seq<Range>, x: nat)
    ensures x in HoleSet(holes) <==> InHole(holes, x)
  {
    if holes != [] {
      var before, r := holes[..|holes| - 1], holes[|holes| - 1];
      HoleSetIs(before, x);
      assert holes == before + [r];
      if x in Offsets(r.pos, r.limit) { assert r in holes && InRange(r, x); }
      if InHole(before, x) {
        var q :| q in before && InRange(q, x);
        assert q in holes;
      }
    }
  }

  function HoleSum(holes: seq<Range>): int {
    if holes == [] then 0 else HoleSum(holes[..|holes| - 1]) + holes[|holes| - 1].limit - holes[|holes| - 1].pos
  }

  ghost predicate Disjoint(total: nat, holes: seq<Range>) {
    && (forall r | r in holes :: r.pos <= r.limit <= total)
    && (forall i, j | 0 <= i < j < |holes| :: !Overlap(holes[i], holes[j]))
  }

  /** Disjoint holes add up: their total length is the number of offsets in them. */
  lemma {:induction false} DisjointSum(total: nat, holes: seq<Range>)
    requires Disjoint(total, holes)
    ensures |HoleSet(holes)| == HoleSum(holes)
  {
    if holes != [] {
      var before, r := holes[..|holes| - 1], holes[|holes| - 1];
      DisjointSum(total, before);
      forall x | x in HoleSet(before) ensures x !in Offsets(r.pos, r.limit) {
        HoleSetIs(before, x);
        var i :| 0 <= i < |before| && InRange(before[i], x);
        assert !Overlap(holes[i], r);
      }
      assert HoleSet(before) !! Offsets(r.pos, r.limit);
    }
  }

  /** So the covered size is the total minus the sum of the holes, which never exceeds the total. */
  lemma CoverageArithmetic(total: nat, holes: seq<Range>)
    requires Disjoint(total, holes)
    ensures 0 <= HoleSum(holes) <= total && |Covered(total, holes)| == total - HoleSum(holes)
  {
    DisjointSum(total, holes);
    CoveredIsRest(total, holes);
    var all := Offsets(0, total);
    assert all == (all - HoleSet(holes)) + HoleSet(holes);
  }

  lemma CoveredIsRest(total: nat, holes: seq<Range>)
    requires Disjoint(total, holes)
    ensures HoleSet(holes) <= Offsets(0, total) && Covered(total, holes) == Offsets(0, total) - HoleSet(holes)
  {
    forall x: nat ensures x in HoleSet(holes) <==> InHole(holes, x) { HoleSetIs(holes, x); }
    forall x | x in HoleSet(holes) ensures x in Offsets(0, total) {
      var r :| r in holes && InRange(r, x);
    }
  }

  lemma {:induction false} HolesAreDisjoint(total: nat, rest: seq<Line>, n: nat)
    requires 2 * n <= |rest| && HolesUpTo(total, rest, n).Some?
    ensures Disjoint(total, HolesUpTo(total, rest, n).value) && |HolesUpTo(total, rest, n).value| == n
  {
    if n > 0 {
      HolesAreDisjoint(total, rest, n - 1);
    }
  }

  /** Once a pair is refused, so is the whole map. */
  lemma {:induction false} RefusalIsFinal(total: nat, rest: seq<Line>, n: nat, m: nat)
    requires n <= m && 2 * m <= |rest| && HolesUpTo(total, rest, n) == None
    ensures HolesUpTo(total, rest, m) == None
    decreases m
  {
    if n < m {
      RefusalIsFinal(total, rest, n, m - 1);
    }
  }

  /** Whatever is accepted is in range. */
  lemma MeaningInRange(oversized: bool, lines: seq<Line>)
    requires Meaning(oversized, lines).Some?
    ensures Meaning(oversized, lines).value.covered <= Meaning(oversized, lines).value.total
  {
    var total, rest := lines[0].size.value, lines[1..];
    if |rest| != 1 {
      HolesAreDisjoint(total, rest, |rest| / 2);
      CoverageArithmetic(total, HolesUpTo(total, rest, |rest| / 2).value);
    }
  }

  // ---- what is accepted, on offsets ---------------------------------------------------------

  /** Two holes that may stand in one map: they share no offset, and neither is an empty one strictly inside the
      other. */
  ghost predicate Apart(a: Range, b: Range) {
    && Offsets(a.pos, a.limit) !! Offsets(b.pos, b.limit)
    && !(a.pos == a.limit && b.pos < a.pos < b.limit) && !(b.pos == b.limit && a.pos < b.pos < a.limit)
  }

  lemma OverlapMeans(a: Range, b: Range)
    requires a.pos <= a.limit && b.pos <= b.limit
    ensures Overlap(a, b) <==> !Apart(a, b)
  {
    if a.pos < a.limit && b.pos < b.limit && Overlap(a, b) {
      var x := if a.pos <= b.pos then b.pos else a.pos;
      assert x in Offsets(a.pos, a.limit) && x in Offsets(b.pos, b.limit);
    }
  }

  /** The lines of segment k are `k.pos=P` and `k.limit=L`, in that order, with P <= L <= total. */
  predicate WellFormed(total: nat, rest: seq<Line>, k: nat)
    requires 2 * k + 1 < |rest|
  {
    && rest[2 * k].PosLine? && rest[2 * k].segment == Some(k) && rest[2 * k].pos.Some?
    && rest[2 * k + 1].LimitLine? && rest[2 * k + 1].segment == Some(k) && rest[2 * k + 1].limit.Some?
    && rest[2 * k].pos.value <= rest[2 * k + 1].limit.value <= total
  }

  function HoleAt(total: nat, rest: seq<Line>, k: nat): Range
    requires 2 * k + 1 < |rest| && WellFormed(total, rest, k)
  {
    Range(rest[2 * k].pos.value, rest[2 * k + 1].limit.value)
  }

  /** A map of n segments may stand: each is well-formed, and any two are apart. */
  ghost predicate Acceptable(total: nat, rest: seq<Line>, n: nat)
    requires 2 * n <= |rest|
  {
    && (forall k | 0 <= k < n :: WellFormed(total, rest, k))
    && (forall j, k | 0 <= j < k < n :: Apart(HoleAt(total, rest, j), HoleAt(total, rest, k)))
  }

  /** Acceptance is exactly that, and the holes are then the segments in order. */
  lemma {:induction false} AcceptedIff(total: nat, rest: seq<Line>, n: nat)
    requires 2 * n <= |rest|
    ensures HolesUpTo(total, rest, n).Some? <==> Acceptable(total, rest, n)
    ensures HolesUpTo(total, rest, n).Some? ==>
              |HolesUpTo(total, rest, n).value| == n &&
              forall k | 0 <= k < n :: WellFormed(total, rest, k) &&
                HolesUpTo(total, rest, n).value[k] == HoleAt(total, rest, k)
  {
    hide Overlap;
    hide Apart;
    hide PairAt;
    hide WellFormed;
    hide HoleAt;
    if n > 0 {
      AcceptedIff(total, rest, n - 1);
      LastPair(total, rest, n - 1);
    }
  }

  /** The last pair joins the ones before it exactly when it is well-formed and apart from each of them. */
  lemma LastPair(total: nat, rest: seq<Line>, k: nat)
    requires 2 * k + 1 < |rest|
    requires HolesUpTo(total, rest, k).Some? ==>
               |HolesUpTo(total, rest, k).value| == k &&
               forall j | 0 <= j < k :: WellFormed(total, rest, j) &&
                 HolesUpTo(total, rest, k).value[j] == HoleAt(total, rest, j)
    ensures PairAt(total, rest, k).Some? <==> WellFormed(total, rest, k)
    ensures PairAt(total, rest, k).Some? ==> PairAt(total, rest, k).value == HoleAt(total, rest, k)
    ensures HolesUpTo(total, rest, k).Some? && WellFormed(total, rest, k) ==>
              ((exists r | r in HolesUpTo(total, rest, k).value :: Overlap(r, HoleAt(total, rest, k))) <==>
               exists j | 0 <= j < k :: !Apart(HoleAt(total, rest, j), HoleAt(total, rest, k)))
  {
    hide Overlap;
    hide Apart;
    hide HolesUpTo;
    if HolesUpTo(total, rest, k).Some? && WellFormed(total, rest, k) {
      var holes := HolesUpTo(total, rest, k).value;
      forall j | 0 <= j < k
        ensures holes[j] == HoleAt(total, rest, j) &&
                (Overlap(holes[j], HoleAt(total, rest, k)) <==> !Apart(HoleAt(total, rest, j), HoleAt(total, rest, k)))
      {
        OverlapMeans(holes[j], HoleAt(total, rest, k));
      }
    }
  }

  /** The offset lies in one of the first n segments. */
  ghost predicate InSegment(total: nat, rest: seq<Line>, n: nat, x: nat)
    requires 2 * n <= |rest| && forall k | 0 <= k < n :: WellFormed(total, rest, k)
  {
    exists k | 0 <= k < n && WellFormed(total, rest, k) ::
      x in Offsets(HoleAt(total, rest, k).pos, HoleAt(total, rest, k).limit)
  }

  /** The meaning of a status with its size line: base-only, the position, if it is segment 0 within the file; with up
      to 256 pairs, the number of offsets in no segment, exactly if the map may stand; anything else is refused. */
  lemma StatusMeans(total: nat, rest: seq<Line>)
    ensures var r := Meaning(false, [SizeLine(Some(total))] + rest);
            if |rest| == 1 then
              r == if rest[0].PosLine? && rest[0].segment == Some(0) && rest[0].pos.Some? && rest[0].pos.value <= total
                   then Some(Status(total, rest[0].pos.value, true)) else None
            else if |rest| % 2 == 0 && 1 <= |rest| / 2 <= 256 then
              && (r.Some? <==> Acceptable(total, rest, |rest| / 2))
              && (r.Some? ==>
                    var covered := set x | x in Offsets(0, total) && !InSegment(total, rest, |rest| / 2, x);
                    r.value == Status(total, |covered|, false))
            else r == None
  {
    hide Acceptable;
    hide HolesUpTo;
    var n := |rest| / 2;
    var lines := [SizeLine(Some(total))] + rest;
    assert lines[1..] == rest;
    if |rest| != 1 && |rest| % 2 == 0 && 1 <= n <= 256 {
      AcceptedIff(total, rest, n);
      AcceptableForms(total, rest, n);
      if HolesUpTo(total, rest, n).Some? {
        var holes := HolesUpTo(total, rest, n).value;
        forall x: nat ensures InHole(holes, x) <==> InSegment(total, rest, n, x) {
          SegmentsAreHoles(total, rest, n, holes, x);
        }
        assert Covered(total, holes) == set x | x in Offsets(0, total) && !InSegment(total, rest, n, x);
      }
    }
  }

  lemma AcceptableForms(total: nat, rest: seq<Line>, n: nat)
    requires 2 * n <= |rest|
    ensures Acceptable(total, rest, n) ==> forall k | 0 <= k < n :: WellFormed(total, rest, k)
  {
  }

  lemma SegmentsAreHoles(total: nat, rest: seq<Line>, n: nat, holes: seq<Range>, x: nat)
    requires 2 * n <= |rest| && |holes| == n
    requires forall k | 0 <= k < n :: WellFormed(total, rest, k) && holes[k] == HoleAt(total, rest, k)
    ensures InHole(holes, x) <==> InSegment(total, rest, n, x)
  {
    if InSegment(total, rest, n, x) {
      var k :| 0 <= k < n && WellFormed(total, rest, k) &&
               x in Offsets(HoleAt(total, rest, k).pos, HoleAt(total, rest, k).limit);
      assert holes[k] in holes && InRange(holes[k], x);
    }
    if InHole(holes, x) {
      var k :| 0 <= k < n && InRange(holes[k], x);
      assert WellFormed(total, rest, k) && x in Offsets(HoleAt(total, rest, k).pos, HoleAt(total, rest, k).limit);
    }
  }

  /** Without a readable size line, or too long, a status means nothing. */
  lemma NoSizeNoMeaning(oversized: bool, lines: seq<Line>)
    requires oversized || lines == [] || !lines[0].SizeLine? || lines[0].size == None
    ensures Meaning(oversized, lines) == None
  {
  }

  // ---- the two parsers -----------------------------------------------------------------------

  /** parse_lftp_pget_status. */
  method ParsePgetStatus(oversized: bool, lines: seq<Line>) returns (r: Option<Status>)
    ensures r == Meaning(oversized, lines)
  {
    if oversized || lines == [] {
      return None;
    }
    if !lines[0].SizeLine? || lines[0].size == None {
      return None;
    }
    var total, rest := lines[0].size.value, lines[1..];
    if |rest| == 1 {
      if !rest[0].PosLine? || rest[0].segment != Some(0) || rest[0].pos == None || rest[0].pos.value > total {
        return None;
      }
      return Some(Status(total, rest[0].pos.value, true));
    }
    if rest == [] || |rest| % 2 != 0 || |rest| / 2 > MAX_SEGMENTS {
      return None;
    }
    var empty := 0;
    var ranges: seq<Range> := [];
    assert HolesUpTo(total, rest, 0) == Some([]);
    for k := 0 to |rest| / 2
      invariant HolesUpTo(total, rest, k) == Some(ranges) && empty == HoleSum(ranges)
    {
      var pos, limit := rest[2 * k], rest[2 * k + 1];
      NextPair(total, rest, k, ranges);
      if !pos.PosLine? || !limit.LimitLine? {
        return None;
      }
      if pos.segment != Some(k) || limit.segment != Some(k) || pos.pos == None || limit.limit == None {
        return None;
      }
      if pos.pos.value > total || limit.limit.value > total || limit.limit.value < pos.pos.value {
        return None;
      }
      var range := Range(pos.pos.value, limit.limit.value);
      if exists q | q in ranges :: Overlap(q, range) {
        return None;
      }
      ranges := ranges + [range];
      empty := empty + range.limit - range.pos;
    }
    HolesAreDisjoint(total, rest, |rest| / 2);
    CoverageArithmetic(total, ranges);
    if empty > total {
      return None;
    }
    r := Some(Status(total, total - empty, false));
  }

  /** One more pair: it is refused, and the whole map with it, or it adds its hole. */
  lemma NextPair(total: nat, rest: seq<Line>, k: nat, ranges: seq<Range>)
    requires 2 * k + 1 < |rest| && HolesUpTo(total, rest, k) == Some(ranges)
    ensures var pair := PairAt(total, rest, k);
            if pair == None || exists q | q in ranges :: Overlap(q, pair.value)
            then HolesUpTo(total, rest, |rest| / 2) == None
            else HolesUpTo(total, rest, k + 1) == Some(ranges + [pair.value]) &&
                 HoleSum(ranges + [pair.value]) == HoleSum(ranges) + pair.value.limit - pair.value.pos
  {
    if HolesUpTo(total, rest, k + 1) == None {
      RefusalIsFinal(total, rest, k + 1, |rest| / 2);
    } else {
      var pair := PairAt(total, rest, k).value;
      assert (ranges + [pair])[..|ranges|] == ranges;
    }
  }

  /** SystemScanner._lftp_status_file_size: the same inputs accepted, the same covered size. */
  method ScannerFileSize(oversized: bool, lines: seq<Line>) returns (r: Option<nat>)
    ensures r == match Meaning(oversized, lines) case Some(status) => Some(status.covered) case None => None
  {
    if oversized || lines == [] || !lines[0].SizeLine? {
      return None;
    }
    var total := lines[0].size;
    if total == None {
      return None;
    }
    var rest := lines[1..];
    if |rest| == 1 {
      if !rest[0].PosLine? || rest[0].segment != Some(0) || rest[0].pos == None {
        return None;
      }
      return if rest[0].pos.value <= total.value then rest[0].pos else None;
    }
    if rest == [] || |rest| % 2 != 0 || |rest| / 2 > MAX_SEGMENTS {
      return None;
    }
    r := ScannerPairs(total.value, rest);
  }

  /** Its loop over the position/limit pairs. */
  method ScannerPairs(total: nat, rest: seq<Line>) returns (r: Option<nat>)
    requires |rest| % 2 == 0
    ensures r == match HolesUpTo(total, rest, |rest| / 2)
                 case Some(holes) => Some(|Covered(total, holes)|) case None => None
  {
    var empty := 0;
    var ranges: seq<Range> := [];
    var index := 0;
    assert HolesUpTo(total, rest, 0) == Some([]);
    while index < |rest|
      invariant index % 2 == 0 && index <= |rest|
      invariant HolesUpTo(total, rest, index / 2) == Some(ranges) && empty == HoleSum(ranges)
    {
      var k := index / 2;
      assert 2 * k == index;
      NextPair(total, rest, k, ranges);
      if !rest[index].PosLine? || !rest[index + 1].LimitLine? ||
         rest[index].segment != Some(k) || rest[index + 1].segment != Some(k) ||
         rest[index].pos == None || rest[index + 1].limit == None {
        return None;
      }
      var pos, limit := rest[index].pos.value, rest[index + 1].limit.value;
      if pos > total || limit > total || limit < pos {
        return None;
      }
      var range := Range(pos, limit);
      if exists q | q in ranges :: Overlap(q, range) {
        return None;
      }
      ranges := ranges + [range];
      empty := empty + limit - pos;
      index := index + 2;
    }
    HolesAreDisjoint(total, rest, |rest| / 2);
    CoverageArithmetic(total, ranges);
    if empty > total {
      return None;
    }
    r := Some(total - empty);
  }
}
