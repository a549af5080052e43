/**
 The receiver of scan stream V2, as the writer's documentation describes it
 (src/python/scan_fs.py:659-664): parent ids point only into the current root's active preorder
 stack, so the tree is rebuilt with that stack alone, without a node-id map.
 */
module ScanDecoder {
  import opened Options
  import opened ScanStream

  /** An open node: its children so far are complete. */
  datatype Frame = Frame(id: nat, file: FileData, done: seq<SystemFile>)

  /** The innermost open node is complete and becomes the last child of the one around it. */
  function Close(stack: seq<Frame>): (r: seq<Frame>)
    requires |stack| >= 2
    ensures |r| == |stack| - 1
  {
    var n := |stack|;
    stack[..n - 2] + [Attach(stack[n - 2], SystemFile(stack[n - 1].file, stack[n - 1].done))]
  }

  function Attach(f: Frame, t: SystemFile): Frame { f.(done := f.done + [t]) }

  /** Close open nodes until `parent` is the innermost one. */
  function PopTo(stack: seq<Frame>, parent: nat): Option<seq<Frame>>
    decreases |stack|
  {
    if stack == [] then None
    else if stack[|stack| - 1].id == parent then Some(stack)
    else if |stack| == 1 then None
    else PopTo(Close(stack), parent)
  }

  function Accept(stack: seq<Frame>, r: NodeRecord): Option<seq<Frame>> {
    match r.parent
    case None => if stack == [] then Some([Frame(r.id, r.file, [])]) else None
    case Some(p) =>
      var popped := PopTo(stack, p);
      if popped == None then None else Some(popped.value + [Frame(r.id, r.file, [])])
  }

  function Feed(stack: seq<Frame>, rs: seq<NodeRecord>): Option<seq<Frame>>
    decreases |rs|
  {
    if rs == [] then Some(stack)
    else
      var next := Accept(stack, rs[0]);
      if next == None then None else Feed(next.value, rs[1..])
  }

  /** Close open nodes until only `depth` are left. */
  function Settle(stack: seq<Frame>, depth: nat): (r: seq<Frame>)
    requires 1 <= depth <= |stack|
    ensures |r| == depth
    decreases |stack|
  {
    if |stack| == depth then stack else Settle(Close(stack), depth)
  }

  /** The tree a sequence of node records describes. */
  function Decode(rs: seq<NodeRecord>): Option<SystemFile> {
    var stack := Feed([], rs);
    if stack == None || stack.value == [] then None
    else
      var root := Settle(stack.value, 1)[0];
      Some(SystemFile(root.file, root.done))
  }

  // ---- lemmas about the stack -------------------------------------------------------

  lemma {:induction false} FeedConcat(stack: seq<Frame>, a: seq<NodeRecord>, b: seq<NodeRecord>)
    ensures Feed(stack, a + b) == if Feed(stack, a) == None then None else Feed(Feed(stack, a).value, b)
    decreases |a|
  {
    if a == [] {
      assert a + b == b;
    } else {
      assert (a + b)[1..] == a[1..] + b;
      var next := Accept(stack, a[0]);
      if next.Some? { FeedConcat(next.value, a[1..], b); }
    }
  }

  lemma {:induction false} SettleOneMore(stack: seq<Frame>, depth: nat)
    requires 1 <= depth < |stack|
    ensures Settle(stack, depth) == Close(Settle(stack, depth + 1))
    decreases |stack|
  {
    if |stack| > depth + 1 { SettleOneMore(Close(stack), depth); }
  }

  lemma {:induction false} SettleKeepsBelow(stack: seq<Frame>, depth: nat)
    requires 1 <= depth <= |stack|
    ensures Settle(stack, depth)[..depth - 1] == stack[..depth - 1]
    ensures Settle(stack, depth)[depth - 1].id == stack[depth - 1].id
    decreases |stack|
  {
    if |stack| > depth {
      SettleKeepsBelow(Close(stack), depth);
      assert Close(stack)[..depth - 1] == stack[..depth - 1];
    }
  }

  /** Popping to a parent settles the stack at the parent's depth when no frame above carries its id. */
  lemma {:induction false} PopSettles(stack: seq<Frame>, depth: nat)
    requires 1 <= depth <= |stack|
    requires forall k | depth <= k < |stack| :: stack[k].id != stack[depth - 1].id
    ensures PopTo(stack, stack[depth - 1].id) == Some(Settle(stack, depth))
    decreases |stack|
  {
    if |stack| > depth {
      var c := Close(stack);
      assert forall k | 0 <= k < |c| :: c[k].id == stack[k].id;
      PopSettles(c, depth);
    }
  }

  /** A stack that has absorbed the trees `ts` below the frame at `base`, the last of them perhaps still open. */
  ghost predicate Absorbed(stack: seq<Frame>, base: seq<Frame>, ts: seq<SystemFile>, id: nat)
    requires base != []
  {
    var n := |base|;
    && |stack| >= n
    && stack[..n - 1] == base[..n - 1] && stack[n - 1].id == base[n - 1].id
    && (forall k | n <= k < |stack| :: stack[k].id >= id)
    && Settle(stack, n) == base[n - 1 := base[n - 1].(done := base[n - 1].done + ts)]
  }

  /** Reading one more sibling does not depend on whether the previous one was still open. */
  lemma SiblingSettles(stack: seq<Frame>, depth: nat, rs: seq<NodeRecord>)
    requires 1 <= depth <= |stack|
    requires forall k | depth <= k < |stack| :: stack[k].id != stack[depth - 1].id
    requires rs != [] && rs[0].parent == Some(stack[depth - 1].id)
    ensures Feed(stack, rs) == Feed(Settle(stack, depth), rs)
  {
    PopSettles(stack, depth);
    SettleKeepsBelow(stack, depth);
    assert Accept(stack, rs[0]) == Accept(Settle(stack, depth), rs[0]);
  }

  lemma {:induction false} FeedTree(t: SystemFile, id: nat, base: seq<Frame>)
    requires base != [] && forall k | 0 <= k < |base| :: base[k].id < id
    ensures var fed := Feed(base, Preorder(t, Some(base[|base| - 1].id), id));
            fed.Some? && Absorbed(fed.value, base, [t], id)
    decreases t, 1
  {
    var n, pid := |base|, base[|base| - 1].id;
    var open := base + [Frame(id, t.data, [])];
    var rs := Preorder(t, Some(pid), id);
    assert rs[1..] == PreorderAll(t.children, id, id + 1);
    assert Accept(base, rs[0]) == Some(open);
    FeedForest(t.children, id + 1, open);
    var s := Feed(open, rs[1..]).value;
    SettleOneMore(s, n);
    TreeClosed(s, base, t, id);
  }

  /** Once its children are absorbed, closing the node attaches the whole tree to its parent. */
  lemma TreeClosed(s: seq<Frame>, base: seq<Frame>, t: SystemFile, id: nat)
    requires base != [] && Absorbed(s, base + [Frame(id, t.data, [])], t.children, id + 1)
    ensures Absorbed(s, base, [t], id)
  {
    var n := |base|;
    var open := base + [Frame(id, t.data, [])];
    var f := Frame(id, t.data, t.children);
    assert [] + t.children == t.children;
    assert Settle(s, n + 1) == base + [f];
    SettleOneMore(s, n);
    assert (base + [f])[..n - 1] == base[..n - 1];
    assert SystemFile(f.file, f.done) == t;
    assert Close(base + [f]) == base[n - 1 := Attach(base[n - 1], t)];
    assert s[..n] == base;
    assert s[..n - 1] == s[..n][..n - 1] && s[n - 1] == s[..n][n - 1];
  }

  lemma {:induction false} FeedForest(ts: seq<SystemFile>, id: nat, base: seq<Frame>)
    requires base != [] && forall k | 0 <= k < |base| :: base[k].id < id
    ensures var fed := Feed(base, PreorderAll(ts, base[|base| - 1].id, id));
            fed.Some? && Absorbed(fed.value, base, ts, id)
    decreases ts, 0
  {
    var n, pid := |base|, base[|base| - 1].id;
    if ts == [] {
      assert base[n - 1].done + ts == base[n - 1].done;
      assert base[n - 1 := base[n - 1].(done := base[n - 1].done + ts)] == base;
    } else {
      var first, rest := Preorder(ts[0], Some(pid), id), PreorderAll(ts[1..], pid, id + Size(ts[0]));
      assert PreorderAll(ts, pid, id) == first + rest;
      hide Preorder;
      hide PreorderAll;
      FeedTree(ts[0], id, base);
      FeedConcat(base, first, rest);
      var s := Feed(base, first).value;
      if ts[1..] == [] {
        EmptyForest(pid, id + Size(ts[0]));
        assert ts == [ts[0]];
      } else {
        FirstParent(ts[1..], pid, id + Size(ts[0]));
        SiblingSettles(s, n, rest);
        var base' := Settle(s, n);
        FeedForest(ts[1..], id + Size(ts[0]), base');
        ForestJoined(Feed(base', rest).value, base, base', ts, id, id + Size(ts[0]));
      }
    }
  }

  lemma EmptyForest(parent: nat, id: nat)
    ensures PreorderAll([], parent, id) == []
  {
  }

  lemma FirstParent(ts: seq<SystemFile>, parent: nat, id: nat)
    requires ts != []
    ensures PreorderAll(ts, parent, id) != [] && PreorderAll(ts, parent, id)[0].parent == Some(parent)
  {
  }

  lemma ForestJoined(s: seq<Frame>, base: seq<Frame>, base': seq<Frame>, ts: seq<SystemFile>, id: nat, id': nat)
    requires base != [] && ts != [] && id <= id'
    requires base' == base[|base| - 1 := Attach(base[|base| - 1], ts[0])]
    requires Absorbed(s, base', ts[1..], id')
    ensures Absorbed(s, base, ts, id)
  {
    var n := |base|;
    assert base'[..n - 1] == base[..n - 1];
    assert base[n - 1].done + [ts[0]] + ts[1..] == base[n - 1].done + ts;
  }

  // ---- round trip ---------------------------------------------------------------------

  /** Decoding the preorder records of a tree gives the tree. */
  lemma RoundTrip(t: SystemFile)
    ensures Decode(Preorder(t, None, 0)) == Some(t)
  {
    var rs := Preorder(t, None, 0);
    var open := [Frame(0, t.data, [])];
    assert rs[1..] == PreorderAll(t.children, 0, 1);
    assert Accept([], rs[0]) == Some(open);
    FeedForest(t.children, 1, open);
    assert [] + t.children == t.children;
  }

  /** Hence different trees have different records. */
  lemma PreorderInjective(a: SystemFile, b: SystemFile)
    requires Preorder(a, None, 0) == Preorder(b, None, 0)
    ensures a == b
  {
    RoundTrip(a);
    RoundTrip(b);
  }
}
