/**
 Scan stream V2: a scanned tree is serialised by an explicit stack into size-bounded batches of
 preorder records (src/python/scan_fs.py: _stream_shallow_file_data, _encode_stream_record,
 _write_stream_root, _write_stream_manifest).

 JSON text is abstracted to its meaning and its length: a line is a value, `Sizes` says how many
 bytes its parts take.
 */
module ScanStream {
  import opened Options

  /** The fields one node record carries; an absent optional field is None. */
  datatype FileData = FileData(
    name: string, size: nat, isDir: bool, created: Option<string>, modified: Option<string>,
    mtimeNs: Option<int>, pairId: Option<string>, pairName: Option<string>, isStaging: bool, hasCollision: bool)

  datatype SystemFile = SystemFile(data: FileData, children: seq<SystemFile>)

  datatype NodeRecord = NodeRecord(id: nat, parent: Option<nat>, file: FileData)

  datatype Line =
    | ManifestBegin(count: nat)
    | ManifestNames(names: seq<string>)
    | ManifestEnd
    | RootBegin(id: nat, name: string)
    | RootNodes(root: nat, nodes: seq<NodeRecord>)
    | RootEnd(id: nat, count: nat)
    | RootUnchanged(name: string, fingerprint: string)
    | Complete

  const MAX_RECORD_BYTES: nat := 64 * 1024

  /** Byte counts of the encoded parts: list elements, and a whole line around its list. */
  datatype Sizes = Sizes(node: NodeRecord -> nat, name: string -> nat, frame: Line -> nat)

  function NodesBytes(z: Sizes, nodes: seq<NodeRecord>): nat {
    if nodes == [] then 0 else NodesBytes(z, nodes[..|nodes| - 1]) + z.node(nodes[|nodes| - 1])
  }

  function NamesBytes(z: Sizes, names: seq<string>): nat {
    if names == [] then 0 else NamesBytes(z, names[..|names| - 1]) + z.name(names[|names| - 1])
  }

  function Commas(n: nat): nat { if n == 0 then 0 else n - 1 }

  /** The length of an encoded line: its frame, plus its list elements with commas between them. */
  function LineBytes(z: Sizes, line: Line): nat {
    match line
    case RootNodes(root, nodes) => z.frame(RootNodes(root, [])) + NodesBytes(z, nodes) + Commas(|nodes|)
    case ManifestNames(names) => z.frame(ManifestNames([])) + NamesBytes(z, names) + Commas(|names|)
    case _ => z.frame(line)
  }

  /** `_encode_stream_record` does not raise. */
  predicate Encodes(z: Sizes, line: Line) { LineBytes(z, line) <= MAX_RECORD_BYTES }

  // ---- preorder ---------------------------------------------------------------------

  function Size(t: SystemFile): nat { 1 + SizeAll(t.children) }

  function SizeAll(ts: seq<SystemFile>): nat { if ts == [] then 0 else Size(ts[0]) + SizeAll(ts[1..]) }

  /** The records of a tree in preorder, numbered from `id`. */
  function Preorder(t: SystemFile, parent: Option<nat>, id: nat): seq<NodeRecord>
    decreases t, 1
  {
    [NodeRecord(id, parent, t.data)] + PreorderAll(t.children, id, id + 1)
  }

  function PreorderAll(ts: seq<SystemFile>, parent: nat, id: nat): seq<NodeRecord>
    decreases ts, 0
  {
    if ts == [] then [] else Preorder(ts[0], Some(parent), id) + PreorderAll(ts[1..], parent, id + Size(ts[0]))
  }

  lemma {:induction false} PreorderIds(t: SystemFile, parent: Option<nat>, id: nat)
    ensures |Preorder(t, parent, id)| == Size(t)
    ensures forall k | 0 <= k < Size(t) :: Preorder(t, parent, id)[k].id == id + k
    decreases t, 1
  {
    PreorderAllIds(t.children, id, id + 1);
  }

  lemma {:induction false} PreorderAllIds(ts: seq<SystemFile>, parent: nat, id: nat)
    ensures |PreorderAll(ts, parent, id)| == SizeAll(ts)
    ensures forall k | 0 <= k < SizeAll(ts) :: PreorderAll(ts, parent, id)[k].id == id + k
    decreases ts, 0
  {
    if ts != [] {
      PreorderIds(ts[0], Some(parent), id);
      PreorderAllIds(ts[1..], parent, id + Size(ts[0]));
    }
  }

  // ---- the explicit stack -------------------------------------------------------------

  type Pending = seq<(SystemFile, Option<nat>)>

  /** What a stack of pending nodes still has to emit, top (last) first. */
  function Remaining(stack: Pending, id: nat): seq<NodeRecord>
    decreases |stack|
  {
    if stack == [] then []
    else
      var (t, parent) := stack[|stack| - 1];
      Preorder(t, parent, id) + Remaining(stack[..|stack| - 1], id + Size(t))
  }

  function PendingSize(stack: Pending): nat {
    if stack == [] then 0 else Size(stack[|stack| - 1].0) + PendingSize(stack[..|stack| - 1])
  }

  /** The children go on the stack in reverse, so that the first one comes off first. */
  function PushChildren(stack: Pending, children: seq<SystemFile>, id: nat): Pending {
    if children == [] then stack
    else PushChildren(stack, children[1..], id) + [(children[0], Some(id))]
  }

  lemma {:induction false} PushedRemaining(stack: Pending, children: seq<SystemFile>, parent: nat, id: nat)
    ensures Remaining(PushChildren(stack, children, parent), id) ==
            PreorderAll(children, parent, id) + Remaining(stack, id + SizeAll(children))
    ensures PendingSize(PushChildren(stack, children, parent)) == PendingSize(stack) + SizeAll(children)
    decreases |children|
  {
    if children != [] {
      var below := PushChildren(stack, children[1..], parent);
      PushedRemaining(stack, children[1..], parent, id + Size(children[0]));
      var all := below + [(children[0], Some(parent))];
      assert all[..|all| - 1] == below;
    }
  }

  /** Popping the top, emitting its record and pushing its children leaves the same records to come. */
  lemma PopRemaining(stack: Pending, id: nat)
    requires stack != []
    ensures var (t, parent) := stack[|stack| - 1];
            Remaining(stack, id) == [NodeRecord(id, parent, t.data)] +
                                    Remaining(PushChildren(stack[..|stack| - 1], t.children, id), id + 1)
  {
    hide PushChildren;
    hide PreorderAll;
    hide Preorder;
    hide Remaining;
    hide Size;
    var (t, parent) := stack[|stack| - 1];
    var below := stack[..|stack| - 1];
    PushedRemaining(below, t.children, id, id + 1);
    RemainingTop(stack, id);
    PreorderRoot(t, parent, id);
    assert forall a: seq<NodeRecord>, b: seq<NodeRecord>, c: seq<NodeRecord> :: a + b + c == a + (b + c);
  }

  lemma RemainingTop(stack: Pending, id: nat)
    requires stack != []
    ensures var (t, parent) := stack[|stack| - 1];
            Remaining(stack, id) == Preorder(t, parent, id) + Remaining(stack[..|stack| - 1], id + Size(t))
  {
  }

  lemma PreorderRoot(t: SystemFile, parent: Option<nat>, id: nat)
    ensures Preorder(t, parent, id) == [NodeRecord(id, parent, t.data)] + PreorderAll(t.children, id, id + 1)
    ensures Size(t) == 1 + SizeAll(t.children)
  {
  }

  lemma PopSize(stack: Pending, id: nat)
    requires stack != []
    ensures PendingSize(PushChildren(stack[..|stack| - 1], stack[|stack| - 1].0.children, id)) + 1 == PendingSize(stack)
  {
    PushedRemaining(stack[..|stack| - 1], stack[|stack| - 1].0.children, id, id + 1);
  }

  // ---- batching -------------------------------------------------------------------------

  function Concat<T>(xss: seq<seq<T>>): seq<T> {
    if xss == [] then [] else Concat(xss[..|xss| - 1]) + xss[|xss| - 1]
  }

  lemma ConcatAppend<T>(xss: seq<seq<T>>, xs: seq<T>)
    ensures Concat(xss + [xs]) == Concat(xss) + xs
  {
    assert (xss + [xs])[..|xss|] == xss;
  }

  predicate NodeFits(z: Sizes, root: nat, r: NodeRecord) { Encodes(z, RootNodes(root, [r])) }

  /** A batch that may be written: some nodes, no more than the cap, within the line limit. */
  predicate GoodBatch(z: Sizes, root: nat, cap: nat, batch: seq<NodeRecord>) {
    1 <= |batch| <= cap && Encodes(z, RootNodes(root, batch))
  }

  lemma NodesBytesAppend(z: Sizes, batch: seq<NodeRecord>, r: NodeRecord)
    ensures NodesBytes(z, batch + [r]) == NodesBytes(z, batch) + z.node(r)
  {
    assert (batch + [r])[..|batch|] == batch;
  }

  /** A record that does not fit a line with others might still fit alone, but not the other way round. */
  lemma FitsAlone(z: Sizes, root: nat, batch: seq<NodeRecord>, r: NodeRecord)
    requires Encodes(z, RootNodes(root, batch + [r]))
    ensures NodeFits(z, root, r)
  {
    NodesBytesAppend(z, batch, r);
    NodesBytesAppend(z, [], r);
    assert [] + [r] == [r];
  }

  ghost predicate AllFit(z: Sizes, root: nat, rs: seq<NodeRecord>) { forall r | r in rs :: NodeFits(z, root, r) }

  /** The batch cannot take one more record: it holds the cap, or the line would be too long. */
  predicate Full(z: Sizes, root: nat, cap: nat, batch: seq<NodeRecord>, r: NodeRecord) {
    |batch| >= cap || (batch != [] && LineBytes(z, RootNodes(root, batch + [r])) > 65536)
  }

  /** No batch is cut short: each one but the last could not take the first record of the next. */
  ghost predicate Packed(z: Sizes, root: nat, cap: nat, batches: seq<seq<NodeRecord>>) {
    forall j, k | 0 <= j && k == j + 1 && k < |batches| :: Follows(z, root, cap, batches[j], batches[k])
  }

  predicate Follows(z: Sizes, root: nat, cap: nat, a: seq<NodeRecord>, b: seq<NodeRecord>) {
    b != [] && Full(z, root, cap, a, b[0])
  }

  lemma PackedNext(z: Sizes, root: nat, cap: nat, batches: seq<seq<NodeRecord>>, batch: seq<NodeRecord>, r: NodeRecord)
    requires cap >= 1 && (batch == [] ==> batches == [])
    requires batch != [] ==> Packed(z, root, cap, batches + [batch])
    ensures Full(z, root, cap, batch, r) ==> Packed(z, root, cap, batches + [batch] + [[r]])
    ensures !Full(z, root, cap, batch, r) ==> Packed(z, root, cap, batches + [batch + [r]])
  {
    hide Full;
    if batch == [] {
      assert batches + [batch + [r]] == [batch + [r]];
      EmptyIsNotFull(z, root, cap, r);
    } else {
      var now, grown, more := batches + [batch], batches + [batch + [r]], batches + [batch] + [[r]];
      forall j, k | 0 <= j && k == j + 1 && k < |grown| ensures Follows(z, root, cap, grown[j], grown[k]) {
        assert Follows(z, root, cap, now[j], now[k]);
      }
      if Full(z, root, cap, batch, r) {
        forall j, k | 0 <= j && k == j + 1 && k < |more| ensures Follows(z, root, cap, more[j], more[k]) {
          if k < |now| { assert Follows(z, root, cap, now[j], now[k]); }
        }
      }
    }
  }

  lemma EmptyIsNotFull(z: Sizes, root: nat, cap: nat, r: NodeRecord)
    requires cap >= 1
    ensures !Full(z, root, cap, [], r)
  {
  }

  /** One node of the `_write_stream_root` loop: flush first if the batch is full or the line would overflow. */
  method AddToBatch(z: Sizes, root: nat, cap: nat, batches: seq<seq<NodeRecord>>, batch: seq<NodeRecord>, r: NodeRecord)
    returns (ok: bool, batches': seq<seq<NodeRecord>>, batch': seq<NodeRecord>)
    requires cap >= 1 && (batch == [] || GoodBatch(z, root, cap, batch))
    requires forall b | b in batches :: GoodBatch(z, root, cap, b)
    ensures ok <==> NodeFits(z, root, r)
    ensures ok ==> GoodBatch(z, root, cap, batch') && Concat(batches') + batch' == Concat(batches) + batch + [r]
    ensures ok ==> if Full(z, root, cap, batch, r) then batches' == batches + [batch] && batch' == [r]
                   else batches' == batches && batch' == batch + [r]
    ensures forall b | b in batches' :: GoodBatch(z, root, cap, b)
  {
    hide LineBytes;
    hide Concat;
    batches', batch' := batches, batch;
    if |batch'| >= cap {
      ConcatAppend(batches', batch');
      batches', batch' := batches' + [batch'], [];
    }
    if Encodes(z, RootNodes(root, batch' + [r])) {
      FitsAlone(z, root, batch', r);
      batch' := batch' + [r];
      return true, batches', batch';
    }
    if batch' != [] {
      ConcatAppend(batches', batch');
      batches', batch' := batches' + [batch'], [];
    } else {
      assert batch' + [r] == [r];
    }
    ok := Encodes(z, RootNodes(root, [r]));
    if ok {
      batch' := [r];
    }
  }

  /** `_write_stream_root`: the batches it writes, or failure. The caller frames them with begin and end lines. */
  method WriteRoot(z: Sizes, rootId: nat, root: SystemFile, cap: nat)
    returns (ok: bool, batches: seq<seq<NodeRecord>>, count: nat)
    requires cap >= 1
    ensures ok <==> Encodes(z, RootBegin(rootId, root.data.name)) && AllFit(z, rootId, Preorder(root, None, 0)) &&
                    Encodes(z, RootEnd(rootId, Size(root)))
    ensures ok ==> Concat(batches) == Preorder(root, None, 0) && count == Size(root)
    ensures forall b | b in batches :: GoodBatch(z, rootId, cap, b)
    ensures ok ==> Packed(z, rootId, cap, batches)
  {
    hide *;
    batches, count := [], 0;
    if !Encodes(z, RootBegin(rootId, root.data.name)) {
      return false, [], 0;
    }
    ghost var all := Preorder(root, None, 0);
    var batch: seq<NodeRecord> := [];
    var pending: Pending := [(root, None)];
    StartOfRoot(z, rootId, root);
    while pending != []
      invariant batch == [] || GoodBatch(z, rootId, cap, batch)
      invariant forall b | b in batches :: GoodBatch(z, rootId, cap, b)
      invariant Concat(batches) + batch + Remaining(pending, count) == all
      invariant count + PendingSize(pending) == Size(root)
      invariant AllFit(z, rootId, Concat(batches) + batch)
      invariant batch == [] ==> batches == [] && pending != []
      invariant batch != [] ==> Packed(z, rootId, cap, batches + [batch])
      decreases PendingSize(pending)
    {
      var (node, parent) := pending[|pending| - 1];
      var r := NodeRecord(count, parent, node.data);
      ghost var done, rest := Concat(batches) + batch, Remaining(pending, count);
      PopRemaining(pending, count);
      PopSize(pending, count);
      pending := PushChildren(pending[..|pending| - 1], node.children, count);
      count := count + 1;
      assert done + rest == done + [r] + Remaining(pending, count);
      OneMoreFits(z, rootId, done, r, Remaining(pending, count));
      PackedNext(z, rootId, cap, batches, batch, r);
      ok, batches, batch := AddToBatch(z, rootId, cap, batches, batch, r);
      if !ok {
        return;
      }
    }
    EndOfRoot(z, rootId, batches, batch, count);
    assert Concat(batches) + batch == all;
    if batch != [] {
      batches := batches + [batch];
    }
    ok := Encodes(z, RootEnd(rootId, count));
  }

  lemma StartOfRoot(z: Sizes, rootId: nat, root: SystemFile)
    ensures Remaining([(root, None)], 0) == Preorder(root, None, 0)
    ensures Concat<NodeRecord>([]) == [] && PendingSize([(root, None)]) == Size(root) && AllFit(z, rootId, [])
  {
    assert Remaining([(root, None)], 0) == Preorder(root, None, 0) + Remaining([], Size(root));
  }

  lemma OneMoreFits(z: Sizes, rootId: nat, done: seq<NodeRecord>, r: NodeRecord, rest: seq<NodeRecord>)
    requires AllFit(z, rootId, done)
    ensures AllFit(z, rootId, done + [r]) <==> NodeFits(z, rootId, r)
    ensures AllFit(z, rootId, done + [r] + rest) ==> NodeFits(z, rootId, r)
  {
    hide NodeFits;
    assert r in done + [r] && r in done + [r] + rest;
  }

  lemma EndOfRoot(z: Sizes, rootId: nat, batches: seq<seq<NodeRecord>>, batch: seq<NodeRecord>, count: nat)
    ensures Remaining([], count) == [] && PendingSize([]) == 0
    ensures Concat(batches + [batch]) == Concat(batches) + batch
  {
    ConcatAppend(batches, batch);
  }
}
