/**
 A whole scan stream: the manifest, then every present root either in full or, when the receiver
 already knows its digest, as one "unchanged" line (src/python/scan_fs.py: stream_root_fingerprint,
 _write_stream_manifest and the stream loop of the main program).

 SHA-256 is a function parameter, assumed injective where a theorem needs it; pair identity is not
 part of the digest, as in the source.
 */
module ScanSession {
  import opened Options
  import opened ScanStream
  import opened ScanDecoder

  // ---- manifest --------------------------------------------------------------------

  predicate NameFits(z: Sizes, name: string) { Encodes(z, ManifestNames([name])) }

  lemma NamesBytesAppend(z: Sizes, batch: seq<string>, name: string)
    ensures NamesBytes(z, batch + [name]) == NamesBytes(z, batch) + z.name(name)
  {
    assert (batch + [name])[..|batch|] == batch;
  }

  lemma NameFitsAlone(z: Sizes, batch: seq<string>, name: string)
    requires Encodes(z, ManifestNames(batch + [name]))
    ensures NameFits(z, name)
  {
    NamesBytesAppend(z, batch, name);
    NamesBytesAppend(z, [], name);
    assert [] + [name] == [name];
  }

  predicate GoodNames(z: Sizes, batch: seq<string>) { batch != [] && Encodes(z, ManifestNames(batch)) }

  /** One name of the manifest loop: flush first if the line would overflow. */
  method AddName(z: Sizes, batches: seq<seq<string>>, batch: seq<string>, name: string)
    returns (ok: bool, batches': seq<seq<string>>, batch': seq<string>)
    requires batch == [] || GoodNames(z, batch)
    requires forall b | b in batches :: GoodNames(z, b)
    ensures ok <==> NameFits(z, name)
    ensures ok ==> GoodNames(z, batch') && Concat(batches') + batch' == Concat(batches) + batch + [name]
    ensures ok ==> if batch != [] && LineBytes(z, ManifestNames(batch + [name])) > 65536
                   then batches' == batches + [batch] && batch' == [name]
                   else batches' == batches && batch' == batch + [name]
    ensures forall b | b in batches' :: GoodNames(z, b)
  {
    hide LineBytes;
    hide Concat;
    batches', batch' := batches, batch;
    if Encodes(z, ManifestNames(batch + [name])) {
      NameFitsAlone(z, batch, name);
      return true, batches, batch + [name];
    }
    if batch == [] {
      assert batch + [name] == [name];
      return false, batches, batch;
    }
    ConcatAppend(batches, batch);
    batches', batch' := batches + [batch], [name];
    ok := Encodes(z, ManifestNames(batch'));
  }

  /** No line that the manifest needs is too long. */
  predicate ManifestEncodes(z: Sizes, names: seq<string>) {
    Encodes(z, ManifestBegin(|names|)) && (forall n | n in names :: NameFits(z, n)) && Encodes(z, ManifestEnd)
  }

  /** `_write_stream_manifest`: all names in order, in non-empty lines within the limit; it fails only if a single
      name, or a frame line, exceeds the limit. */
  method WriteManifest(z: Sizes, names: seq<string>) returns (ok: bool, batches: seq<seq<string>>)
    ensures ok <==> ManifestEncodes(z, names)
    ensures ok ==> Concat(batches) == names
    ensures forall b | b in batches :: GoodNames(z, b)
  {
    batches := [];
    if !Encodes(z, ManifestBegin(|names|)) {
      return false, [];
    }
    assert Concat<string>([]) == [];
    var batch: seq<string> := [];
    for i := 0 to |names|
      invariant batch == [] || GoodNames(z, batch)
      invariant forall b | b in batches :: GoodNames(z, b)
      invariant Concat(batches) + batch == names[..i]
      invariant forall k | 0 <= k < i :: NameFits(z, names[k])
    {
      assert names[..i + 1] == names[..i] + [names[i]];
      ok, batches, batch := AddName(z, batches, batch, names[i]);
      if !ok {
        assert names[i] in names;
        return;
      }
    }
    assert names[..|names|] == names;
    if batch != [] {
      ConcatAppend(batches, batch);
      batches := batches + [batch];
    }
    ok := Encodes(z, ManifestEnd);
  }

  // ---- fingerprints ------------------------------------------------------------------

  type Hash = seq<NodeRecord> -> string

  function StripData(d: FileData): FileData { d.(pairId := None, pairName := None) }

  function StripRecords(rs: seq<NodeRecord>): (r: seq<NodeRecord>)
    ensures |r| == |rs| && forall k | 0 <= k < |rs| :: r[k] == rs[k].(file := StripData(rs[k].file))
  {
    seq(|rs|, (k: nat) requires k < |rs| => rs[k].(file := StripData(rs[k].file)))
  }

  /** The tree without pair identity, which the receiver attaches itself. */
  function Strip(t: SystemFile): SystemFile
    decreases t, 1
  {
    SystemFile(StripData(t.data), StripAll(t.children))
  }

  function StripAll(ts: seq<SystemFile>): seq<SystemFile>
    decreases ts, 0
  {
    if ts == [] then [] else [Strip(ts[0])] + StripAll(ts[1..])
  }

  lemma {:induction false} StripSize(t: SystemFile)
    ensures Size(Strip(t)) == Size(t)
    decreases t, 1
  {
    StripSizeAll(t.children);
  }

  lemma {:induction false} StripSizeAll(ts: seq<SystemFile>)
    ensures SizeAll(StripAll(ts)) == SizeAll(ts)
    decreases ts, 0
  {
    if ts != [] {
      StripSize(ts[0]);
      StripSizeAll(ts[1..]);
      assert StripAll(ts)[1..] == StripAll(ts[1..]);
    }
  }

  lemma StripConcat(a: seq<NodeRecord>, b: seq<NodeRecord>)
    ensures StripRecords(a + b) == StripRecords(a) + StripRecords(b)
  {
  }

  lemma {:induction false} StripPreorder(t: SystemFile, parent: Option<nat>, id: nat)
    ensures StripRecords(Preorder(t, parent, id)) == Preorder(Strip(t), parent, id)
    decreases t, 1
  {
    StripPreorderAll(t.children, id, id + 1);
    StripConcat([NodeRecord(id, parent, t.data)], PreorderAll(t.children, id, id + 1));
  }

  lemma {:induction false} StripPreorderAll(ts: seq<SystemFile>, parent: nat, id: nat)
    ensures StripRecords(PreorderAll(ts, parent, id)) == PreorderAll(StripAll(ts), parent, id)
    decreases ts, 0
  {
    if ts != [] {
      StripPreorder(ts[0], Some(parent), id);
      StripPreorderAll(ts[1..], parent, id + Size(ts[0]));
      StripSize(ts[0]);
      StripConcat(Preorder(ts[0], Some(parent), id), PreorderAll(ts[1..], parent, id + Size(ts[0])));
      assert StripAll(ts)[1..] == StripAll(ts[1..]);
    }
  }

  function FingerprintOf(hash: Hash, t: SystemFile): string { hash(Preorder(Strip(t), None, 0)) }

  /** `stream_root_fingerprint`: the digest of the stripped tree's records. */
  method Fingerprint(hash: Hash, root: SystemFile) returns (fingerprint: string)
    ensures fingerprint == FingerprintOf(hash, root)
  {
    var input: seq<NodeRecord> := [];
    var next := 0;
    var pending: Pending := [(root, None)];
    ghost var all, done: seq<NodeRecord> := Preorder(root, None, 0), [];
    assert Remaining(pending, 0) == all + Remaining([], Size(root)) == all;
    while pending != []
      invariant done + Remaining(pending, next) == all && input == StripRecords(done)
      decreases PendingSize(pending)
    {
      var (node, parent) := pending[|pending| - 1];
      PopRemaining(pending, next);
      PopSize(pending, next);
      var r := NodeRecord(next, parent, node.data);
      pending := PushChildren(pending[..|pending| - 1], node.children, next);
      next := next + 1;
      input := input + [r.(file := StripData(r.file))];
      done := done + [r];
    }
    assert done == all;
    StripPreorder(root, None, 0);
    fingerprint := hash(input);
  }

  ghost predicate Injective(hash: Hash) { forall a, b :: hash(a) == hash(b) ==> a == b }

  /** Two trees agree in every field that the stream carries but pair identity, node by node. */
  predicate SameTree(a: SystemFile, b: SystemFile) {
    && a.data.name == b.data.name && a.data.size == b.data.size && a.data.isDir == b.data.isDir
    && a.data.created == b.data.created && a.data.modified == b.data.modified && a.data.mtimeNs == b.data.mtimeNs
    && a.data.isStaging == b.data.isStaging && a.data.hasCollision == b.data.hasCollision
    && |a.children| == |b.children|
    && forall i | 0 <= i < |a.children| :: SameTree(a.children[i], b.children[i])
  }

  lemma {:induction false} StripAllAt(ts: seq<SystemFile>)
    ensures |StripAll(ts)| == |ts| && forall i | 0 <= i < |ts| :: StripAll(ts)[i] == Strip(ts[i])
  {
    hide Strip;
    if ts != [] {
      StripAllAt(ts[1..]);
      assert forall i | 1 <= i < |ts| :: ts[i] == ts[1..][i - 1];
    }
  }

  /** Stripping drops pair identity and nothing else. */
  lemma {:induction false} StripMeans(a: SystemFile, b: SystemFile)
    ensures Strip(a) == Strip(b) <==> SameTree(a, b)
    decreases a
  {
    StripAllAt(a.children);
    StripAllAt(b.children);
    forall i | 0 <= i < |a.children| && i < |b.children|
      ensures Strip(a.children[i]) == Strip(b.children[i]) <==> SameTree(a.children[i], b.children[i])
    {
      StripMeans(a.children[i], b.children[i]);
    }
  }

  lemma {:induction false} SameTreeItself(t: SystemFile)
    ensures SameTree(t, t)
    decreases t
  {
    StripMeans(t, t);
  }

  /** The digest tells exactly the trees apart that differ in a field other than pair identity. */
  lemma SameFingerprint(hash: Hash, a: SystemFile, b: SystemFile)
    requires Injective(hash)
    ensures FingerprintOf(hash, a) == FingerprintOf(hash, b) <==> SameTree(a, b)
  {
    StripMeans(a, b);
    if FingerprintOf(hash, a) == FingerprintOf(hash, b) { PreorderInjective(Strip(a), Strip(b)); }
  }

  // ---- the stream -------------------------------------------------------------------------

  /** The lines of one root sent in full. */
  function RootLines(id: nat, t: SystemFile, batches: seq<seq<NodeRecord>>): seq<Line> {
    [RootBegin(id, t.data.name)] + NodeLines(id, batches) + [RootEnd(id, Size(t))]
  }

  function NodeLines(id: nat, batches: seq<seq<NodeRecord>>): seq<Line> {
    if batches == [] then [] else NodeLines(id, batches[..|batches| - 1]) + [RootNodes(id, batches[|batches| - 1])]
  }

  /** The receiver already has this root: the digest it sent for the name is the root's. */
  predicate IsKnown(hash: Hash, known: map<string, string>, name: string, t: SystemFile) {
    name in known && known[name] == FingerprintOf(hash, t)
  }

  /** What the stream holds for one present root: one line if its digest is known, its full records otherwise. */
  ghost predicate SegmentOf(hash: Hash, known: map<string, string>, name: string, t: SystemFile, segment: seq<Line>) {
    if IsKnown(hash, known, name, t) then segment == [RootUnchanged(name, known[name])]
    else exists id, batches :: segment == RootLines(id, t, batches) && Concat(batches) == Preorder(t, None, 0)
  }

  /** The roots that are still there when their turn comes. */
  function Present(roots: seq<(string, Option<SystemFile>)>): seq<(string, SystemFile)> {
    if roots == [] then []
    else
      var (name, t) := roots[|roots| - 1];
      var before := Present(roots[..|roots| - 1]);
      if t == None then before else before + [(name, t.value)]
  }

  ghost predicate StreamOf(
      hash: Hash, known: map<string, string>, present: seq<(string, SystemFile)>, segments: seq<seq<Line>>)
  {
    |segments| == |present| &&
    forall i | 0 <= i < |present| :: SegmentOf(hash, known, present[i].0, present[i].1, segments[i])
  }

  /** How many of these roots are sent in full, which is also the id of the next one that is. */
  function SentInFull(hash: Hash, known: map<string, string>, present: seq<(string, SystemFile)>): nat {
    if present == [] then 0
    else
      var (name, t) := present[|present| - 1];
      SentInFull(hash, known, present[..|present| - 1]) + if IsKnown(hash, known, name, t) then 0 else 1
  }

  /** No record that the root needs is too long for a line of its own. */
  ghost predicate RootEncodes(z: Sizes, id: nat, t: SystemFile) {
    Encodes(z, RootBegin(id, t.data.name)) && AllFit(z, id, Preorder(t, None, 0)) && Encodes(z, RootEnd(id, Size(t)))
  }

  ghost predicate StreamEncodes(z: Sizes, hash: Hash, known: map<string, string>, present: seq<(string, SystemFile)>) {
    present == [] ||
    (var (name, t) := present[|present| - 1];
     var before := present[..|present| - 1];
     StreamEncodes(z, hash, known, before) &&
     if IsKnown(hash, known, name, t) then Encodes(z, RootUnchanged(name, known[name]))
     else RootEncodes(z, SentInFull(hash, known, before), t))
  }

  /** A root that cannot be sent fails the whole stream. */
  lemma {:induction false} FailureIsFinal(z: Sizes, hash: Hash, known: map<string, string>,
                                          roots: seq<(string, Option<SystemFile>)>, n: nat)
    requires n <= |roots| && !StreamEncodes(z, hash, known, Present(roots[..n]))
    ensures !StreamEncodes(z, hash, known, Present(roots))
    decreases |roots|
  {
    if n == |roots| {
      assert roots[..n] == roots;
    } else {
      var before := roots[..|roots| - 1];
      assert before[..n] == roots[..n];
      FailureIsFinal(z, hash, known, before, n);
      assert Present(roots) == Present(before) ||
             Present(roots)[..|Present(roots)| - 1] == Present(before);
    }
  }

  ghost predicate Short(z: Sizes, lines: seq<Line>) { forall line | line in lines :: Encodes(z, line) }

  lemma {:induction false} ShortNodes(z: Sizes, id: nat, batches: seq<seq<NodeRecord>>)
    requires forall b | b in batches :: Encodes(z, RootNodes(id, b))
    ensures Short(z, NodeLines(id, batches))
    decreases |batches|
  {
    if batches != [] {
      ShortNodes(z, id, batches[..|batches| - 1]);
    }
  }

  /** One present root: its segment, or failure when some record of it is too long alone. */
  method StreamRoot(z: Sizes, hash: Hash, known: map<string, string>, name: string, t: SystemFile, id: nat, cap: nat)
    returns (ok: bool, segment: seq<Line>, sent: bool)
    requires cap >= 1
    ensures sent <==> !IsKnown(hash, known, name, t)
    ensures ok <==> if sent then RootEncodes(z, id, t) else Encodes(z, RootUnchanged(name, known[name]))
    ensures ok ==> Short(z, segment) && SegmentOf(hash, known, name, t, segment)
  {
    hide Encodes;
    hide Preorder;
    var fingerprint := Fingerprint(hash, t);
    sent := !(name in known && known[name] == fingerprint);
    if sent {
      var batches, count;
      ok, batches, count := WriteRoot(z, id, t, cap);
      segment := RootLines(id, t, batches);
      if ok {
        ShortNodes(z, id, batches);
      }
    } else {
      segment := [RootUnchanged(name, fingerprint)];
      ok := Encodes(z, segment[0]);
    }
  }

  /** The stream loop of the main program: one segment per present root, in order, then `complete`; it fails only on a
      scan error or on a record that is too long for a line of its own. */
  method StreamRoots(z: Sizes, hash: Hash, roots: seq<(string, Option<SystemFile>)>, known: map<string, string>,
                     cap: nat, hadErrors: bool)
    returns (ok: bool, segments: seq<seq<Line>>)
    requires 1 <= cap <= 64
    ensures ok <==> !hadErrors && StreamEncodes(z, hash, known, Present(roots)) && Encodes(z, Complete)
    ensures ok ==> StreamOf(hash, known, Present(roots), segments)
    ensures forall s | s in segments :: Short(z, s)
  {
    hide *;
    segments := [];
    var emitted := 0;
    PresentNone(z, hash, known, roots);
    for i := 0 to |roots|
      invariant StreamOf(hash, known, Present(roots[..i]), segments)
      invariant StreamEncodes(z, hash, known, Present(roots[..i]))
      invariant emitted == SentInFull(hash, known, Present(roots[..i]))
      invariant forall s | s in segments :: Short(z, s)
    {
      var (name, present) := roots[i];
      PresentNext(roots, i);
      if present.Some? {
        var segment, sent;
        ok, segment, sent := StreamRoot(z, hash, known, name, present.value, emitted, cap);
        OneMoreRoot(z, hash, known, Present(roots[..i]), name, present.value);
        if !ok {
          FailureIsFinal(z, hash, known, roots, i + 1);
          return;
        }
        OneMoreSegment(hash, known, Present(roots[..i]), segments, name, present.value, segment);
        segments := segments + [segment];
        emitted := if sent then emitted + 1 else emitted;
      }
    }
    assert roots[..|roots|] == roots;
    ok := !hadErrors && Encodes(z, Complete);
  }

  lemma PresentNone(z: Sizes, hash: Hash, known: map<string, string>, roots: seq<(string, Option<SystemFile>)>)
    ensures var none := Present(roots[..0]);
            StreamOf(hash, known, none, []) && StreamEncodes(z, hash, known, none) && SentInFull(hash, known, none) == 0
  {
  }

  lemma PresentNext(roots: seq<(string, Option<SystemFile>)>, i: nat)
    requires i < |roots|
    ensures Present(roots[..i + 1]) ==
            if roots[i].1.Some? then Present(roots[..i]) + [(roots[i].0, roots[i].1.value)] else Present(roots[..i])
  {
    assert roots[..i + 1][..i] == roots[..i];
  }

  lemma OneMoreRoot(z: Sizes, hash: Hash, known: map<string, string>, before: seq<(string, SystemFile)>, name: string,
                    t: SystemFile)
    ensures StreamEncodes(z, hash, known, before + [(name, t)]) <==>
            StreamEncodes(z, hash, known, before) &&
            if IsKnown(hash, known, name, t) then Encodes(z, RootUnchanged(name, known[name]))
            else RootEncodes(z, SentInFull(hash, known, before), t)
    ensures SentInFull(hash, known, before + [(name, t)]) ==
            SentInFull(hash, known, before) + if IsKnown(hash, known, name, t) then 0 else 1
  {
    hide RootEncodes;
    hide Encodes;
    assert (before + [(name, t)])[..|before|] == before;
  }

  lemma OneMoreSegment(hash: Hash, known: map<string, string>, before: seq<(string, SystemFile)>,
                       segments: seq<seq<Line>>,
                       name: string, t: SystemFile, segment: seq<Line>)
    requires StreamOf(hash, known, before, segments) && SegmentOf(hash, known, name, t, segment)
    ensures StreamOf(hash, known, before + [(name, t)], segments + [segment])
  {
    hide SegmentOf;
  }

  // ---- the receiver ------------------------------------------------------------------------

  type Cache = map<string, SystemFile>

  /** Roots received so far, and the open root's id and records. */
  datatype Receiver = Receiver(roots: seq<SystemFile>, open: Option<(nat, seq<NodeRecord>)>)

  function Receive(hash: Hash, cache: Cache, rx: Receiver, line: Line): Option<Receiver> {
    match line
    case RootBegin(id, name) => if rx.open == None then Some(rx.(open := Some((id, [])))) else None
    case RootNodes(root, nodes) =>
      if rx.open != None && rx.open.value.0 == root
      then Some(rx.(open := Some((root, rx.open.value.1 + nodes)))) else None
    case RootEnd(id, count) =>
      if rx.open == None || rx.open.value.0 != id || |rx.open.value.1| != count then None
      else
        var t := Decode(rx.open.value.1);
        if t == None then None else Some(Receiver(rx.roots + [t.value], None))
    case RootUnchanged(name, fingerprint) =>
      if rx.open == None && name in cache && FingerprintOf(hash, cache[name]) == fingerprint
      then Some(rx.(roots := rx.roots + [cache[name]])) else None
    case _ => if rx.open == None then Some(rx) else None
  }

  function ReceiveAll(hash: Hash, cache: Cache, rx: Receiver, lines: seq<Line>): Option<Receiver>
    decreases |lines|
  {
    if lines == [] then Some(rx)
    else
      var next := Receive(hash, cache, rx, lines[0]);
      if next == None then None else ReceiveAll(hash, cache, next.value, lines[1..])
  }

  lemma {:induction false} ReceiveConcat(hash: Hash, cache: Cache, rx: Receiver, a: seq<Line>, b: seq<Line>)
    ensures ReceiveAll(hash, cache, rx, a + b) ==
            var mid := ReceiveAll(hash, cache, rx, a);
            if mid == None then None else ReceiveAll(hash, cache, mid.value, b)
    decreases |a|
  {
    if a == [] {
      assert a + b == b;
    } else {
      assert (a + b)[1..] == a[1..] + b;
      var next := Receive(hash, cache, rx, a[0]);
      if next.Some? { ReceiveConcat(hash, cache, next.value, a[1..], b); }
    }
  }

  lemma ReceiveOne(hash: Hash, cache: Cache, rx: Receiver, line: Line)
    ensures ReceiveAll(hash, cache, rx, [line]) == Receive(hash, cache, rx, line)
  {
    var next := Receive(hash, cache, rx, line);
    if next.Some? { assert ReceiveAll(hash, cache, next.value, [line][1..]) == next; }
  }

  lemma {:induction false} ReceiveNodes(
      hash: Hash, cache: Cache, roots: seq<SystemFile>, id: nat, batches: seq<seq<NodeRecord>>)
    ensures ReceiveAll(hash, cache, Receiver(roots, Some((id, []))), NodeLines(id, batches)) ==
            Some(Receiver(roots, Some((id, Concat(batches)))))
    decreases |batches|
  {
    if batches != [] {
      var before, last := batches[..|batches| - 1], batches[|batches| - 1];
      ReceiveNodes(hash, cache, roots, id, before);
      ReceiveConcat(hash, cache, Receiver(roots, Some((id, []))), NodeLines(id, before), [RootNodes(id, last)]);
      ReceiveOne(hash, cache, Receiver(roots, Some((id, Concat(before)))), RootNodes(id, last));
    }
  }

  /** A root sent in full is received exactly. */
  lemma ReceiveRoot(hash: Hash, cache: Cache, roots: seq<SystemFile>, id: nat, t: SystemFile,
                    batches: seq<seq<NodeRecord>>)
    requires Concat(batches) == Preorder(t, None, 0)
    ensures ReceiveAll(hash, cache, Receiver(roots, None), RootLines(id, t, batches)) ==
            Some(Receiver(roots + [t], None))
  {
    var begin, nodes, end := [RootBegin(id, t.data.name)], NodeLines(id, batches), [RootEnd(id, Size(t))];
    var rx := Receiver(roots, None);
    ReceiveOne(hash, cache, rx, begin[0]);
    ReceiveConcat(hash, cache, rx, begin, nodes);
    ReceiveNodes(hash, cache, roots, id, batches);
    ReceiveConcat(hash, cache, rx, begin + nodes, end);
    ReceiveOne(hash, cache, Receiver(roots, Some((id, Concat(batches)))), end[0]);
    PreorderIds(t, None, 0);
    RoundTrip(t);
  }

  /** The digests the receiver advertises are those of the roots it has cached. */
  ghost predicate Honest(hash: Hash, cache: Cache, known: map<string, string>) {
    forall name | name in known :: name in cache && known[name] == FingerprintOf(hash, cache[name])
  }

  /** The root is new to the receiver or differs, pair identity apart, from what it has. */
  predicate Changed(cache: Cache, name: string, t: SystemFile) { name !in cache || !SameTree(cache[name], t) }

  /** A root is skipped exactly when the receiver sent a digest for its name and already has that very tree. */
  lemma SkippedIff(hash: Hash, cache: Cache, known: map<string, string>, name: string, t: SystemFile,
                   segment: seq<Line>)
    requires Injective(hash) && Honest(hash, cache, known) && SegmentOf(hash, known, name, t, segment)
    ensures |segment| == 1 <==> name in known && SameTree(cache[name], t)
    ensures |segment| == 1 ==> segment[0] == RootUnchanged(name, known[name])
    ensures |segment| != 1 ==>
              |segment| >= 2 && segment[0].RootBegin? && segment[|segment| - 1] == RootEnd(segment[0].id, Size(t))
  {
    if name in known { SameFingerprint(hash, cache[name], t); }
  }

  lemma ReceiveSegment(hash: Hash, cache: Cache, known: map<string, string>, roots: seq<SystemFile>,
                       name: string, t: SystemFile, segment: seq<Line>)
    requires Injective(hash) && Honest(hash, cache, known) && SegmentOf(hash, known, name, t, segment)
    ensures var got := ReceiveAll(hash, cache, Receiver(roots, None), segment);
            && got.Some? && got.value.open == None && |got.value.roots| == |roots| + 1
            && got.value.roots[..|roots|] == roots && SameTree(got.value.roots[|roots|], t)
            && (Changed(cache, name, t) ==> got.value.roots[|roots|] == t)
  {
    if IsKnown(hash, known, name, t) {
      ReceiveOne(hash, cache, Receiver(roots, None), segment[0]);
      SameFingerprint(hash, cache[name], t);
    } else {
      var id, batches :| segment == RootLines(id, t, batches) && Concat(batches) == Preorder(t, None, 0);
      ReceiveRoot(hash, cache, roots, id, t, batches);
      SameTreeItself(t);
    }
  }

  /** Every present root is received, in order, up to pair identity; exactly, when it changed. */
  ghost predicate Delivered(cache: Cache, present: seq<(string, SystemFile)>, roots: seq<SystemFile>) {
    && |roots| == |present|
    && forall i | 0 <= i < |present| ::
         SameTree(roots[i], present[i].1) && (Changed(cache, present[i].0, present[i].1) ==> roots[i] == present[i].1)
  }

  lemma {:induction false} ReceiveStream(hash: Hash, cache: Cache, known: map<string, string>,
                                         present: seq<(string, SystemFile)>, segments: seq<seq<Line>>)
    requires Injective(hash) && Honest(hash, cache, known) && StreamOf(hash, known, present, segments)
    ensures var got := ReceiveAll(hash, cache, Receiver([], None), Concat(segments));
            got.Some? && got.value.open == None && Delivered(cache, present, got.value.roots)
    decreases |segments|
  {
    if segments != [] {
      var n := |segments| - 1;
      ReceiveStream(hash, cache, known, present[..n], segments[..n]);
      ReceiveConcat(hash, cache, Receiver([], None), Concat(segments[..n]), segments[n]);
      var rx := ReceiveAll(hash, cache, Receiver([], None), Concat(segments[..n])).value;
      ReceiveSegment(hash, cache, known, rx.roots, present[n].0, present[n].1, segments[n]);
      var got := ReceiveAll(hash, cache, rx, segments[n]).value;
      forall i | 0 <= i < |present|
        ensures SameTree(got.roots[i], present[i].1) &&
                (Changed(cache, present[i].0, present[i].1) ==> got.roots[i] == present[i].1)
      {
        if i < n { assert got.roots[i] == got.roots[..n][i] && present[..n][i] == present[i]; }
      }
    }
  }

  /** Incremental scan refines full scan: skipping known roots delivers the same root list, pair identity apart. */
  lemma IncrementalRefinesFull(hash: Hash, cache: Cache, known: map<string, string>,
                               roots: seq<(string, Option<SystemFile>)>,
                               incremental: seq<seq<Line>>, full: seq<seq<Line>>)
    requires Injective(hash) && Honest(hash, cache, known)
    requires StreamOf(hash, known, Present(roots), incremental) && StreamOf(hash, map[], Present(roots), full)
    ensures var a := ReceiveAll(hash, cache, Receiver([], None), Concat(incremental) + [Complete]);
            var b := ReceiveAll(hash, map[], Receiver([], None), Concat(full) + [Complete]);
            && a.Some? && b.Some? && |a.value.roots| == |b.value.roots| == |Present(roots)|
            && (forall i | 0 <= i < |Present(roots)| ::
                  SameTree(a.value.roots[i], b.value.roots[i]) && b.value.roots[i] == Present(roots)[i].1)
  {
    hide Strip;
    hide SegmentOf;
    hide Injective;
    ReceiveStream(hash, cache, known, Present(roots), incremental);
    ReceiveStream(hash, map[], map[], Present(roots), full);
    var rx, ry := ReceiveAll(hash, cache, Receiver([], None), Concat(incremental)).value,
                  ReceiveAll(hash, map[], Receiver([], None), Concat(full)).value;
    ReceiveConcat(hash, cache, Receiver([], None), Concat(incremental), [Complete]);
    ReceiveConcat(hash, map[], Receiver([], None), Concat(full), [Complete]);
    ReceiveOne(hash, cache, rx, Complete);
    ReceiveOne(hash, map[], ry, Complete);
  }

  // ---- one session, end to end ---------------------------------------------------------------

  function NamesOf(roots: seq<(string, Option<SystemFile>)>): seq<string> {
    seq(|roots|, (i: nat) requires i < |roots| => roots[i].0)
  }

  function NameLines(batches: seq<seq<string>>): seq<Line> {
    if batches == [] then [] else NameLines(batches[..|batches| - 1]) + [ManifestNames(batches[|batches| - 1])]
  }

  function ManifestLines(names: seq<string>, batches: seq<seq<string>>): seq<Line> {
    [ManifestBegin(|names|)] + NameLines(batches) + [ManifestEnd]
  }

  predicate OfManifest(line: Line) { line.ManifestBegin? || line.ManifestNames? || line.ManifestEnd? }

  lemma {:induction false} NameLinesShort(z: Sizes, batches: seq<seq<string>>)
    requires forall b | b in batches :: GoodNames(z, b)
    ensures Short(z, NameLines(batches)) && forall line | line in NameLines(batches) :: OfManifest(line)
  {
    if batches != [] {
      var last := batches[|batches| - 1];
      NameLinesShort(z, batches[..|batches| - 1]);
      assert last in batches && GoodNames(z, last);
    }
  }

  lemma {:induction false} ReceiveManifest(hash: Hash, cache: Cache, rx: Receiver, lines: seq<Line>)
    requires rx.open == None && forall line | line in lines :: OfManifest(line)
    ensures ReceiveAll(hash, cache, rx, lines) == Some(rx)
    decreases |lines|
  {
    if lines != [] {
      assert lines[0] in lines;
      ReceiveManifest(hash, cache, rx, lines[1..]);
    }
  }

  lemma {:induction false} ShortConcat(z: Sizes, segments: seq<seq<Line>>)
    requires forall s | s in segments :: Short(z, s)
    ensures Short(z, Concat(segments))
    decreases |segments|
  {
    if segments != [] {
      ShortConcat(z, segments[..|segments| - 1]);
      assert segments[|segments| - 1] in segments;
    }
  }

  /** The receiver accepts these lines and ends with every present root, in order. */
  ghost predicate Received(hash: Hash, cache: Cache, known: map<string, string>, present: seq<(string, SystemFile)>,
                           lines: seq<Line>) {
    var got := ReceiveAll(hash, cache, Receiver([], None), lines);
    got.Some? && got.value.open == None && Delivered(cache, present, got.value.roots)
  }

  lemma SessionReceived(hash: Hash, cache: Cache, known: map<string, string>, present: seq<(string, SystemFile)>,
                        manifest: seq<Line>, segments: seq<seq<Line>>)
    requires Injective(hash) && Honest(hash, cache, known) && StreamOf(hash, known, present, segments)
    requires forall line | line in manifest :: OfManifest(line)
    ensures Received(hash, cache, known, present, manifest + Concat(segments) + [Complete])
  {
    hide StreamOf;
    hide Delivered;
    hide Honest;
    hide Injective;
    var start := Receiver([], None);
    ReceiveManifest(hash, cache, start, manifest);
    ReceiveConcat(hash, cache, start, manifest, Concat(segments));
    ReceiveStream(hash, cache, known, present, segments);
    var rx := ReceiveAll(hash, cache, start, Concat(segments)).value;
    ReceiveConcat(hash, cache, start, manifest + Concat(segments), [Complete]);
    ReceiveOne(hash, cache, rx, Complete);
  }

  /** The main program's stream mode: manifest, roots, `complete`. Every line is within the limit; the session fails
      exactly on a scan error or a record that is too long for a line of its own; and every receiver that sent digests
      of what it has ends with the present roots. */
  method StreamSession(z: Sizes, hash: Hash, roots: seq<(string, Option<SystemFile>)>, known: map<string, string>,
                       cap: nat, hadErrors: bool)
    returns (ok: bool, lines: seq<Line>)
    requires 1 <= cap <= 64
    ensures ok <==> !hadErrors && ManifestEncodes(z, NamesOf(roots)) &&
                    StreamEncodes(z, hash, known, Present(roots)) && Encodes(z, Complete)
    ensures ok ==> Short(z, lines)
    ensures ok ==> forall cache: Cache ::
              Injective(hash) && Honest(hash, cache, known) ==> Received(hash, cache, known, Present(roots), lines)
  {
    hide Encodes;
    hide StreamEncodes;
    hide StreamOf;
    hide Present;
    hide Received;
    hide Honest;
    hide Injective;
    lines := [];
    var names := NamesOf(roots);
    var batches, segments;
    ok, batches := WriteManifest(z, names);
    if !ok {
      return;
    }
    NameLinesShort(z, batches);
    ok, segments := StreamRoots(z, hash, roots, known, cap, hadErrors);
    if !ok {
      return;
    }
    ShortConcat(z, segments);
    lines := ManifestLines(names, batches) + Concat(segments) + [Complete];
    forall cache: Cache | Injective(hash) && Honest(hash, cache, known)
      ensures Received(hash, cache, known, Present(roots), lines)
    {
      SessionReceived(hash, cache, known, Present(roots), ManifestLines(names, batches), segments);
    }
  }
}
