/**
 Durable breadcrumb records, the JSON lines they become and the counters that account for them
 (BreadcrumbDurableSpool in src/python/common/breadcrumb_trace.py).
 */
module DurableRecords {
  import opened Octets

  /** The JSON line of a record, if it can be encoded. */
  datatype Encoding = Unencodable | Line(text: seq<Byte>)

  /** `bytes` is the estimate that the queue budget charges, not the length of the line. */
  datatype Record = Record(id: nat, critical: bool, bytes: nat, encoding: Encoding)

  function LineOf(r: Record): seq<Byte> { if r.encoding.Line? then r.encoding.text else [] }

  /** The file content that consists of exactly these records' lines, in order. */
  function Lines(rs: seq<Record>): seq<Byte> {
    if rs == [] then [] else Lines(rs[..|rs| - 1]) + LineOf(rs[|rs| - 1])
  }

  lemma LinesAppend(rs: seq<Record>, r: Record)
    ensures Lines(rs + [r]) == Lines(rs) + LineOf(r)
  {
    assert (rs + [r])[..|rs|] == rs;
  }

  lemma {:induction false} LinesConcat(a: seq<Record>, b: seq<Record>)
    ensures Lines(a + b) == Lines(a) + Lines(b)
    decreases |b|
  {
    if b == [] {
      assert a + b == a;
    } else {
      var b', last := b[..|b| - 1], b[|b| - 1];
      LinesConcat(a, b');
      assert a + b == (a + b') + [last];
      LinesAppend(a + b', last);
      assert Lines(a) + (Lines(b') + LineOf(last)) == Lines(a) + Lines(b') + LineOf(last);
    }
  }

  /** Each encodable record's text stands whole in the content, right after the lines of the records before it. */
  lemma EachLineInPlace(rs: seq<Record>, i: nat)
    requires i < |rs|
    ensures var k := |Lines(rs[..i])|;
            match rs[i].encoding
            case Line(text) => k + |text| <= |Lines(rs)| && Lines(rs)[k..k + |text|] == text &&
                               |Lines(rs[..i + 1])| == k + |text|
            case Unencodable => |Lines(rs[..i + 1])| == k
  {
    hide Lines;
    var before, after := rs[..i], rs[i + 1..];
    assert rs[..i + 1] == before + [rs[i]] && rs == rs[..i + 1] + after;
    LinesAppend(before, rs[i]);
    LinesConcat(rs[..i + 1], after);
  }

  function Bytes(rs: seq<Record>): nat { if rs == [] then 0 else Bytes(rs[..|rs| - 1]) + rs[|rs| - 1].bytes }

  function CriticalCount(rs: seq<Record>): (n: nat)
    ensures n <= |rs|
  {
    if rs == [] then 0 else CriticalCount(rs[..|rs| - 1]) + if rs[|rs| - 1].critical then 1 else 0
  }

  lemma BytesAppend(rs: seq<Record>, r: Record)
    ensures Bytes(rs + [r]) == Bytes(rs) + r.bytes
    ensures CriticalCount(rs + [r]) == CriticalCount(rs) + if r.critical then 1 else 0
  {
    assert (rs + [r])[..|rs|] == rs;
  }

  lemma {:induction false} BytesHead(rs: seq<Record>)
    requires rs != []
    ensures Bytes(rs) == rs[0].bytes + Bytes(rs[1..])
  {
    if |rs| > 1 {
      BytesHead(rs[..|rs| - 1]);
      assert rs[1..][..|rs| - 2] == rs[..|rs| - 1][1..];
    }
  }

  lemma {:induction false} CriticalCountConcat(a: seq<Record>, b: seq<Record>)
    ensures CriticalCount(a + b) == CriticalCount(a) + CriticalCount(b)
  {
    if b == [] {
      assert a + b == a;
    } else {
      var b' := b[..|b| - 1];
      CriticalCountConcat(a, b');
      assert (a + b)[..|a + b| - 1] == a + b';
    }
  }

  // ---- health counters ------------------------------------------------------------

  datatype Health = Health(accepted: nat, written: nat, lost: nat, criticalLost: nat, normalLost: nat)

  /** The batch counted once: its first `k` records written, the others lost in their own lanes. */
  function Accounted(h: Health, batch: seq<Record>, k: nat): (h': Health)
    requires k <= |batch|
    ensures h'.written + h'.lost == h.written + h.lost + |batch|
    ensures h.lost == h.criticalLost + h.normalLost ==> h'.lost == h'.criticalLost + h'.normalLost
  {
    var critical := CriticalCount(batch[k..]);
    Health(h.accepted, h.written + k, h.lost + |batch| - k, h.criticalLost + critical,
           h.normalLost + |batch| - k - critical)
  }
}
