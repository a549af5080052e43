/**
 One batch of the durable writer: encode, open or rotate, append record by record, flush, and
 on a failure roll the active file back to a record boundary, quarantine it if even that fails,
 and account the batch (BreadcrumbDurableSpool.__open_file, __rotate_active, __write_batch,
 __rollback_file and __quarantine_active_file in src/python/common/breadcrumb_trace.py).

 What the operating system does is a parameter: which calls fail and how many bytes a failed
 write left behind. The functions say what each operation leaves on disk, the lemmas what that
 means, and the class carries out the operations step by step.
 */
module BatchWriter {
  import opened Octets
  import opened Options
  import opened DurableRecords

  datatype Limits = Limits(rotateBytes: nat, maxBytes: nat)

  /** `detached` holds every rotated or quarantined file, oldest first; `active` is None when there is no such file. */
  datatype Files = Files(detached: seq<seq<Byte>>, active: Option<seq<Byte>>, handleOpen: bool)

  /** The writer's side of the spool: its files and its two latches. */
  datatype Owner = Owner(files: Files, boundaryWritten: bool, disabled: bool)

  /** The outcome of one append; a short or raising write leaves a prefix behind. */
  datatype Append = Whole | Torn(prefix: nat)

  /** Outcomes on the way to an open handle; `created`: an open that failed still left an empty file behind. */
  datatype OpenIo = OpenIo(inspectOk: bool, renameOk: bool, pruneOk: bool, openOk: bool, created: bool)

  datatype Io = Io(
    opening: OpenIo, appends: seq<Append>, flushOk: bool, rollbackOk: bool, quarantineOk: bool, pruneOk: bool)

  // ---- everything on disk ---------------------------------------------------------

  function ActiveOf(f: Files): seq<Byte> { if f.active.Some? then f.active.value else [] }

  function Join(fs: seq<seq<Byte>>): seq<Byte> { if fs == [] then [] else Join(fs[..|fs| - 1]) + fs[|fs| - 1] }

  /** Every byte the writer ever left on disk, in the order of writing. */
  function Content(f: Files): seq<Byte> { Join(f.detached) + ActiveOf(f) }

  lemma JoinAppend(fs: seq<seq<Byte>>, f: seq<Byte>)
    ensures Join(fs + [f]) == Join(fs) + f
  {
    assert (fs + [f])[..|fs|] == fs;
  }

  // ---- opening and rotating ---------------------------------------------------------

  predicate Overfull(lim: Limits, f: Files) { f.active.Some? && |f.active.value| > lim.maxBytes }

  predicate Rotates(lim: Limits, f: Files, required: nat) {
    f.active.Some? && |f.active.value| + required > lim.rotateBytes
  }

  function Closed(f: Files): Files { f.(handleOpen := false) }

  /** The active file under a new name. */
  function Detached(f: Files): Files { Files(f.detached + [ActiveOf(f)], None, false) }

  function ActiveOpened(f: Files, io: OpenIo): (Files, bool) {
    if io.openOk then (f.(active := Some(ActiveOf(f)), handleOpen := true), true)
    else (f.(active := if io.created then Some(ActiveOf(f)) else f.active, handleOpen := false), false)
  }

  /** `__open_file` with `__rotate_active`: the files it leaves, and whether there is a handle with room. */
  function Opened(lim: Limits, f: Files, disabled: bool, required: nat, io: OpenIo): (Files, bool) {
    if disabled || required > lim.maxBytes || !io.inspectOk || Overfull(lim, f) then (f, false)
    else if Rotates(lim, f, required) then
      if !io.renameOk then (Closed(f), false)
      else if !io.pruneOk then (Detached(f), false)        // renamed, then retention failed
      else ActiveOpened(Detached(f), io)
    else if f.handleOpen then (f, true)
    else ActiveOpened(f, io)
  }

  /** Opening moves bytes at most from the active file to a rotated one, and all of them together. */
  lemma OpenKeepsContent(lim: Limits, f: Files, disabled: bool, required: nat, io: OpenIo)
    ensures var (g, ok) := Opened(lim, f, disabled, required, io);
            && Content(g) == Content(f)
            && ((g.detached == f.detached && ActiveOf(g) == ActiveOf(f)) ||
                (Rotates(lim, f, required) && g.detached == f.detached + [ActiveOf(f)] && ActiveOf(g) == []))
            && (ok ==> g.handleOpen && !disabled && ((f.handleOpen ==> f.active.Some?) ==> g.active.Some?))
            && (ok && Rotates(lim, f, required) ==> ActiveOf(g) == [])
  {
    hide Content;
    hide ActiveOpened;
    hide ActiveOf;
    DetachedContent(f);
    ClosedContent(f);
    ActiveOpenedContent(f, io);
    ActiveOpenedContent(Detached(f), io);
  }

  lemma DetachedContent(f: Files)
    ensures Content(Detached(f)) == Content(f) && ActiveOf(Detached(f)) == []
  {
    hide Join;
    JoinAppend(f.detached, ActiveOf(f));
    assert Join(f.detached) + ActiveOf(f) + [] == Join(f.detached) + ActiveOf(f);
  }

  lemma ClosedContent(f: Files)
    ensures Content(Closed(f)) == Content(f) && ActiveOf(Closed(f)) == ActiveOf(f)
  {
  }

  lemma ActiveOpenedContent(f: Files, io: OpenIo)
    ensures var (g, ok) := ActiveOpened(f, io);
            && Content(g) == Content(f) && g.detached == f.detached && ActiveOf(g) == ActiveOf(f)
            && (ok ==> g.handleOpen && g.active.Some?)
  {
    hide Join;
  }

  // ---- undoing --------------------------------------------------------------------------

  function Extend(f: Files, bytes: seq<Byte>): Files { f.(active := Some(ActiveOf(f) + bytes)) }

  /** `__rollback_file`, and `__quarantine_active_file` when seek or truncate fails. */
  function RolledBack(f: Files, start: nat, io: Io): Files
    requires start <= |ActiveOf(f)|
  {
    if io.rollbackOk then f.(active := Some(ActiveOf(f)[..start]))
    else if io.quarantineOk then Detached(f)
    else Closed(f)
  }

  /** What a rollback leaves behind a record boundary: nothing, unless it failed. */
  function LeftBehind(bytes: seq<Byte>, io: Io): seq<Byte> { if io.rollbackOk then [] else bytes }

  /** After whole lines and some bytes more, undoing leaves the lines; unless it fails, nothing else. */
  lemma UndoneContent(f: Files, lines: seq<Byte>, bytes: seq<Byte>, io: Io)
    ensures var whole := Extend(f, lines);
            var g := Closed(RolledBack(Extend(whole, bytes), |ActiveOf(whole)|, io));
            && Content(g) == Content(f) + lines + LeftBehind(bytes, io)
            && (io.rollbackOk ==> ActiveOf(g) == ActiveOf(f) + lines && g.detached == f.detached)
  {
    var active := ActiveOf(f) + lines;
    assert (active + bytes)[..|active|] == active;
    JoinAppend(f.detached, active + bytes);
    Associative(Join(f.detached), ActiveOf(f), lines, bytes);
  }

  lemma Associative<T>(a: seq<T>, b: seq<T>, c: seq<T>, d: seq<T>)
    ensures a + (b + c + d) == a + b + c + d && a + (b + c) == a + b + c && a + b + c + [] == a + b + c
  {
  }

  lemma ExtendContent(f: Files, bytes: seq<Byte>)
    ensures Content(Extend(f, bytes)) == Content(f) + bytes && Content(Closed(Extend(f, bytes))) == Content(f) + bytes
    ensures ActiveOf(Extend(f, bytes)) == ActiveOf(Closed(Extend(f, bytes))) == ActiveOf(f) + bytes
  {
    Associative(Join(f.detached), ActiveOf(f), bytes, []);
  }

  lemma NoBytes(f: Files)
    ensures Extend(f, []) == f.(active := Some(ActiveOf(f))) && ActiveOf(Extend(f, [])) == ActiveOf(f)
    ensures forall bytes :: Extend(Extend(f, []), bytes) == Extend(f, bytes)
  {
    assert ActiveOf(f) + [] == ActiveOf(f);
  }

  // ---- one batch --------------------------------------------------------------------------

  predicate Encodable(batch: seq<Record>) { forall i | 0 <= i < |batch| :: batch[i].encoding.Line? }

  /** The i-th append of the batch succeeds in full. */
  predicate AppendOk(io: Io, i: nat) { i >= |io.appends| || io.appends[i].Whole? }

  /** What a short or raising write leaves in the file. */
  function TornPrefix(line: seq<Byte>, a: Append): seq<Byte> {
    if a.Torn? then line[..if a.prefix <= |line| then a.prefix else |line|] else line
  }

  /** The length of the longest prefix of the batch whose appends all succeed. */
  function WholeAppends(batch: seq<Record>, io: Io, from: nat): (n: nat)
    requires from <= |batch|
    ensures from <= n <= |batch|
    ensures forall i | from <= i < n :: AppendOk(io, i)
    ensures n < |batch| ==> !AppendOk(io, n)
    decreases |batch| - from
  {
    if from == |batch| || !AppendOk(io, from) then from else WholeAppends(batch, io, from + 1)
  }

  function Failed(o: Owner, f: Files): Owner { o.(files := Closed(f), disabled := true) }

  /** The n-th append failed: its partial bytes are undone. */
  function TornAppend(f: Files, batch: seq<Record>, n: nat, io: Io): Files
    requires n < |batch| && !AppendOk(io, n)
  {
    var whole := Extend(f, Lines(batch[..n]));
    RolledBack(Extend(whole, TornPrefix(LineOf(batch[n]), io.appends[n])), |ActiveOf(whole)|, io)
  }

  /** The batch on a file that is open. */
  function OpenWritten(o: Owner, f: Files, batch: seq<Record>, io: Io): (r: (Owner, nat))
    ensures r.1 <= |batch|
  {
    var n := WholeAppends(batch, io, 0);
    if n < |batch| then (Failed(o, TornAppend(f, batch, n, io)), n)
    else if !io.flushOk then (Failed(o, RolledBack(Extend(f, Lines(batch)), |ActiveOf(f)|, io)), 0)
    else if !io.pruneOk then (Failed(o, Extend(f, Lines(batch))), |batch|)
    else (o.(files := Extend(f, Lines(batch))), |batch|)
  }

  /** Of the owner, only the latches matter once the files are open. */
  lemma OnlyLatches(o: Owner, f: Files, batch: seq<Record>, io: Io)
    ensures OpenWritten(o, f, batch, io) == OpenWritten(o.(files := f), f, batch, io)
  {
  }

  /** The files once `__write_batch` has tried to open them; without a boundary or an encoding it does not try. */
  function AtOpen(lim: Limits, o: Owner, batch: seq<Record>, io: Io): (Files, bool) {
    if !o.boundaryWritten || !Encodable(batch) then (o.files, false)
    else Opened(lim, o.files, o.disabled, |Lines(batch)|, io.opening)
  }

  /** `__write_batch`: the owner it leaves and how many records of the batch count as written. */
  function BatchWritten(lim: Limits, o: Owner, batch: seq<Record>, io: Io): (r: (Owner, nat))
    ensures r.1 <= |batch|
  {
    var (f, ok) := AtOpen(lim, o, batch, io);
    if ok then OpenWritten(o, f, batch, io) else (Failed(o, f), 0)
  }

  /** The bytes beyond the last counted record that a failed rollback could not take back. */
  function Residue(lim: Limits, o: Owner, batch: seq<Record>, io: Io): seq<Byte> {
    if AtOpen(lim, o, batch, io).1 then OpenedResidue(batch, io) else []
  }

  /** No rollback was needed, or it succeeded. */
  predicate Recovered(lim: Limits, o: Owner, batch: seq<Record>, io: Io) {
    io.rollbackOk || !AtOpen(lim, o, batch, io).1 || (WholeAppends(batch, io, 0) == |batch| && io.flushOk)
  }

  /** The residue of a batch on an open file. */
  function OpenedResidue(batch: seq<Record>, io: Io): seq<Byte> {
    var n := WholeAppends(batch, io, 0);
    if n < |batch| then LeftBehind(TornPrefix(LineOf(batch[n]), io.appends[n]), io)
    else if !io.flushOk then LeftBehind(Lines(batch), io)
    else []
  }

  lemma OpenedContent(o: Owner, f: Files, batch: seq<Record>, io: Io)
    ensures var (o', k) := OpenWritten(o, f, batch, io);
            && Content(o'.files) == Content(f) + Lines(batch[..k]) + OpenedResidue(batch, io)
            && (io.rollbackOk || (WholeAppends(batch, io, 0) == |batch| && io.flushOk) ==>
                  ActiveOf(o'.files) == ActiveOf(f) + Lines(batch[..k]) && o'.files.detached == f.detached)
  {
    hide Lines;
    hide Content;
    hide RolledBack;
    hide WholeAppends;
    hide ActiveOf;
    hide TornPrefix;
    var n := WholeAppends(batch, io, 0);
    NoLines(batch);
    if n < |batch| {
      UndoneContent(f, Lines(batch[..n]), TornPrefix(LineOf(batch[n]), io.appends[n]), io);
    } else if !io.flushOk {
      NoBytes(f);
      UndoneContent(f, [], Lines(batch), io);
      Associative(ActiveOf(f), [], [], []);
    } else {
      assert batch[..n] == batch;
      ExtendContent(f, Lines(batch));
      Associative(Content(f), Lines(batch), [], []);
    }
  }

  lemma NoLines(batch: seq<Record>)
    ensures Lines(batch[..0]) == []
  {
  }

  /** Truthful accounting, for every failure point and on all files at once: what is on disk afterwards is what was
      there, then exactly the records counted as written, as whole lines in order, and then what a failed rollback
      left behind, which is nothing unless output is disabled for good. */
  lemma TruthfulBatch(lim: Limits, o: Owner, batch: seq<Record>, io: Io)
    ensures var (o', k) := BatchWritten(lim, o, batch, io);
            && Content(o'.files) == Content(o.files) + Lines(batch[..k]) + Residue(lim, o, batch, io)
            && (Recovered(lim, o, batch, io) ==> Residue(lim, o, batch, io) == [])
            && (k < |batch| || Residue(lim, o, batch, io) != [] ==> o'.disabled)
            && (o.disabled ==> o'.disabled && k == 0 && Residue(lim, o, batch, io) == [])
            && o'.boundaryWritten == o.boundaryWritten && (!o.boundaryWritten ==> k == 0)
  {
    hide Lines;
    hide Content;
    hide Opened;
    OpenKeepsContent(lim, o.files, o.disabled, |Lines(batch)|, io.opening);
    var (f, ok) := AtOpen(lim, o, batch, io);
    if ok {
      OpenedContent(o, f, batch, io);
    } else {
      NoLines(batch);
      ClosedContent(f);
    }
  }

  /** The active file by itself: unless an undo was needed and failed, it is its content at batch open plus exactly
      the counted lines, and at batch open it is what it was, or empty with the old content in a rotated file. */
  lemma TruthfulActive(lim: Limits, o: Owner, batch: seq<Record>, io: Io)
    ensures var (o', k) := BatchWritten(lim, o, batch, io);
            var (f, ok) := AtOpen(lim, o, batch, io);
            && (Recovered(lim, o, batch, io) ==>
                  ActiveOf(o'.files) == ActiveOf(f) + Lines(batch[..k]) && o'.files.detached == f.detached)
            && ((f.detached == o.files.detached && ActiveOf(f) == ActiveOf(o.files)) ||
                (Rotates(lim, o.files, |Lines(batch)|) && ActiveOf(f) == [] &&
                 f.detached == o.files.detached + [ActiveOf(o.files)]))
  {
    hide Lines;
    hide Content;
    hide Opened;
    OpenKeepsContent(lim, o.files, o.disabled, |Lines(batch)|, io.opening);
    var (f, ok) := AtOpen(lim, o, batch, io);
    if ok {
      OpenedContent(o, f, batch, io);
    } else {
      NoLines(batch);
    }
  }

  // ---- the session boundary -------------------------------------------------------------

  /** `__publish_session_boundary`: one separately committed line, or output is disabled for good. */
  function BoundaryCommitted(lim: Limits, o: Owner, line: seq<Byte>, io: Io): (Owner, bool) {
    var (f, ok) := Opened(lim, o.files, o.disabled, |line|, io.opening);
    if !ok then (Failed(o, f), false)
    else if !AppendOk(io, 0) then
      (Failed(o, RolledBack(Extend(f, TornPrefix(line, io.appends[0])), |ActiveOf(f)|, io)), false)
    else if !io.flushOk then (Failed(o, RolledBack(Extend(f, line), |ActiveOf(f)|, io)), false)
    else (o.(files := Extend(f, line), boundaryWritten := true), true)
  }

  function BoundaryResidue(lim: Limits, o: Owner, line: seq<Byte>, io: Io): seq<Byte> {
    if !Opened(lim, o.files, o.disabled, |line|, io.opening).1 then []
    else if !AppendOk(io, 0) then LeftBehind(TornPrefix(line, io.appends[0]), io)
    else if !io.flushOk then LeftBehind(line, io)
    else []
  }

  lemma TruthfulBoundary(lim: Limits, o: Owner, line: seq<Byte>, io: Io)
    ensures var (o', ok) := BoundaryCommitted(lim, o, line, io);
            && Content(o'.files) == Content(o.files) + (if ok then line else []) + BoundaryResidue(lim, o, line, io)
            && (ok ==> o'.boundaryWritten && !o.disabled && o'.disabled == o.disabled)
            && (!ok ==> o'.disabled && o'.boundaryWritten == o.boundaryWritten)
            && (ok || io.rollbackOk ==> BoundaryResidue(lim, o, line, io) == [])
            && (o.disabled ==> BoundaryResidue(lim, o, line, io) == [])
  {
    hide Content;
    hide Opened;
    hide RolledBack;
    hide ActiveOf;
    hide TornPrefix;
    OpenKeepsContent(lim, o.files, o.disabled, |line|, io.opening);
    var (f, ok) := Opened(lim, o.files, o.disabled, |line|, io.opening);
    NoBytes(f);
    Associative(Content(f), line, [], []);
    if !ok {
      ClosedContent(f);
    } else if !AppendOk(io, 0) {
      UndoneContent(f, [], TornPrefix(line, io.appends[0]), io);
    } else if !io.flushOk {
      UndoneContent(f, [], line, io);
    } else {
      ExtendContent(f, line);
    }
  }

  // ---- without faults everything is written -------------------------------------------------

  /** Every call the operating system is asked for succeeds. */
  predicate Faultless(io: Io) {
    && io.opening.inspectOk && io.opening.renameOk && io.opening.pruneOk && io.opening.openOk
    && (forall i | 0 <= i < |io.appends| :: io.appends[i] == Whole)
    && io.flushOk && io.pruneOk
  }

  /** Without faults the file opens whenever output is enabled and neither the bytes nor the file exceed the bound. */
  lemma FaultlessOpen(lim: Limits, f: Files, required: nat, io: Io)
    requires Faultless(io) && required <= lim.maxBytes && |ActiveOf(f)| <= lim.maxBytes
    ensures var (g, ok) := Opened(lim, f, false, required, io.opening);
            ok && g.handleOpen && (g.active.Some? || f.handleOpen) &&
            (|ActiveOf(g)| + required <= lim.rotateBytes || ActiveOf(g) == [])
  {
  }

  /** Exactly when a handle results, and when the active file is rotated away for it. */
  lemma OpensExactly(lim: Limits, f: Files, disabled: bool, required: nat, io: OpenIo)
    ensures var (g, ok) := Opened(lim, f, disabled, required, io);
            var tooSmall := f.active.Some? && |f.active.value| + required > lim.rotateBytes;
            && (ok <==> && !disabled && required <= lim.maxBytes && |ActiveOf(f)| <= lim.maxBytes && io.inspectOk
                        && (if tooSmall then io.renameOk && io.pruneOk && io.openOk else f.handleOpen || io.openOk))
            && (ok ==> g.detached == if tooSmall then f.detached + [f.active.value] else f.detached)
            && (ok ==> ActiveOf(g) == if tooSmall then [] else ActiveOf(f))
  {
  }

  lemma {:induction false} AllAppended(batch: seq<Record>, io: Io, from: nat)
    requires from <= |batch| && Faultless(io)
    ensures WholeAppends(batch, io, from) == |batch|
    decreases |batch| - from
  {
    if from < |batch| { AllAppended(batch, io, from + 1); }
  }

  /** The faultless batch: it is written as a whole, output stays enabled and the file stays within its bound. */
  lemma FaultlessBatch(lim: Limits, o: Owner, batch: seq<Record>, io: Io)
    requires o.boundaryWritten && !o.disabled && Faultless(io)
    requires forall i | 0 <= i < |batch| :: batch[i].encoding.Line?
    requires |Lines(batch)| <= lim.maxBytes && |ActiveOf(o.files)| <= lim.maxBytes
    ensures var (o', k) := BatchWritten(lim, o, batch, io);
            && k == |batch| && !o'.disabled && o'.boundaryWritten
            && Content(o'.files) == Content(o.files) + Lines(batch)
            && (lim.rotateBytes <= lim.maxBytes ==> |ActiveOf(o'.files)| <= lim.maxBytes)
  {
    hide Lines;
    hide Content;
    hide Opened;
    FaultlessOpen(lim, o.files, |Lines(batch)|, io);
    AllAppended(batch, io, 0);
    TruthfulBatch(lim, o, batch, io);
    assert batch[..|batch|] == batch;
    var (f, ok) := AtOpen(lim, o, batch, io);
    Associative(Content(o.files), Lines(batch), [], []);
    ExtendContent(f, Lines(batch));
  }

  /** The faultless boundary: its line is on disk and output enabled. */
  lemma FaultlessBoundary(lim: Limits, o: Owner, line: seq<Byte>, io: Io)
    requires !o.disabled && Faultless(io) && |line| <= lim.maxBytes && |ActiveOf(o.files)| <= lim.maxBytes
    ensures var (o', ok) := BoundaryCommitted(lim, o, line, io);
            && ok && o'.boundaryWritten && !o'.disabled
            && Content(o'.files) == Content(o.files) + line
            && (lim.rotateBytes <= lim.maxBytes ==> |ActiveOf(o'.files)| <= lim.maxBytes)
  {
    hide Content;
    hide Opened;
    FaultlessOpen(lim, o.files, |line|, io);
    TruthfulBoundary(lim, o, line, io);
    var (f, ok) := Opened(lim, o.files, o.disabled, |line|, io.opening);
    Associative(Content(o.files), line, [], []);
    ExtendContent(f, line);
  }

  /** Output is enabled, no call fails, and bytes and file are within the bound. */
  predicate Smooth(lim: Limits, o: Owner, required: nat, io: Io) {
    !o.disabled && Faultless(io) && required <= lim.maxBytes && |ActiveOf(o.files)| <= lim.maxBytes
  }

  lemma SmoothBatch(lim: Limits, o: Owner, batch: seq<Record>, io: Io)
    ensures var (o', k) := BatchWritten(lim, o, batch, io);
            o.boundaryWritten && Encodable(batch) && Smooth(lim, o, |Lines(batch)|, io) ==> k == |batch| && !o'.disabled
  {
    hide Lines;
    hide BatchWritten;
    if o.boundaryWritten && Encodable(batch) && Smooth(lim, o, |Lines(batch)|, io) {
      FaultlessBatch(lim, o, batch, io);
    }
  }

  lemma SmoothBoundary(lim: Limits, o: Owner, line: seq<Byte>, io: Io)
    ensures Smooth(lim, o, |line|, io) ==> BoundaryCommitted(lim, o, line, io).1
  {
    hide BoundaryCommitted;
    if Smooth(lim, o, |line|, io) { FaultlessBoundary(lim, o, line, io); }
  }

  // ---- the writer itself ----------------------------------------------------------------

  class Writer {
    const limits: Limits
    var detached: seq<seq<Byte>>
    var active: Option<seq<Byte>>
    var handleOpen: bool
    var fileSize: nat           // the size tracked for the open handle
    var boundaryWritten: bool
    var disabled: bool
    var health: Health

    ghost function Disk(): Files
      reads this
    {
      Files(detached, active, handleOpen)
    }

    ghost function Now(): Owner
      reads this
    {
      Owner(Disk(), boundaryWritten, disabled)
    }

    ghost predicate Valid()
      reads this
    {
      && (handleOpen ==> active.Some? && fileSize == |active.value|)
      && health.lost == health.criticalLost + health.normalLost
    }

    constructor (limits: Limits, existing: Option<seq<Byte>>)
      ensures Valid() && this.limits == limits && health == Health(0, 0, 0, 0, 0)
      ensures Now() == Owner(Files([], existing, false), false, false)
    {
      this.limits := limits;
      detached, active, handleOpen, fileSize := [], existing, false, 0;
      boundaryWritten, disabled, health := false, false, Health(0, 0, 0, 0, 0);
    }

    method CloseFile()
      modifies this`handleOpen, this`fileSize
      ensures Disk() == Closed(old(Disk())) && !handleOpen
    {
      handleOpen, fileSize := false, 0;
    }

    /** `__rotate_active`: a failure of retention comes after the rename. */
    method RotateActive(io: OpenIo) returns (ok: bool)
      requires active.Some? && !disabled
      modifies this`detached, this`active, this`handleOpen, this`fileSize, this`disabled
      ensures Disk() == if io.renameOk then Detached(old(Disk())) else Closed(old(Disk()))
      ensures ok == (io.renameOk && io.pruneOk) && disabled == (io.renameOk && !io.pruneOk)
    {
      CloseFile();
      if !io.renameOk {
        return false;
      }
      detached, active := detached + [active.value], None;
      if !io.pruneOk {
        disabled := true;
        return false;
      }
      ok := true;
    }

    /** `__open_file`. */
    method OpenFile(required: nat, io: OpenIo) returns (ok: bool)
      requires Valid()
      modifies this`detached, this`active, this`handleOpen, this`fileSize, this`disabled
      ensures Valid() && (Disk(), ok) == old(Opened(limits, Disk(), disabled, required, io))
      ensures ok ==> handleOpen && disabled == old(disabled)
      ensures disabled == (|| old(disabled)
                           || (required <= limits.maxBytes && io.inspectOk && |ActiveOf(old(Disk()))| > limits.maxBytes)
                           || (detached != old(detached) && !io.pruneOk))
      // a file within its bound opens unless output is disabled, the bytes exceed the bound or a call fails
      ensures (!old(disabled) && required <= limits.maxBytes && |ActiveOf(old(Disk()))| <= limits.maxBytes &&
               io.inspectOk && io.renameOk && io.pruneOk && io.openOk) ==> ok
    {
      if disabled || required > limits.maxBytes || !io.inspectOk {
        return false;
      }
      if active.Some? {
        var size := if handleOpen then fileSize else |active.value|;
        if size > limits.maxBytes {
          disabled := true;
          return false;
        }
        if size + required > limits.rotateBytes {
          ok := RotateActive(io);
          if !ok {
            return;
          }
        } else if handleOpen {
          return true;
        }
      }
      ok := io.openOk;
      if ok || io.created {
        active := Some(ActiveOf(Files(detached, active, false)));
      }
      handleOpen := ok;
      fileSize := if ok then |active.value| else 0;
    }

    /** `__rollback_file`, and `__quarantine_active_file` when seek or truncate fails. */
    method RollBack(start: nat, io: Io)
      requires handleOpen && active.Some? && start <= |active.value|
      modifies this`detached, this`active, this`handleOpen, this`fileSize, this`disabled
      ensures Disk() == RolledBack(old(Disk()), start, io)
      ensures handleOpen ==> fileSize == start
      ensures disabled == (old(disabled) || !io.rollbackOk)
    {
      if io.rollbackOk {
        active, fileSize := Some(active.value[..start]), start;
        return;
      }
      disabled := true;
      if io.quarantineOk {
        detached, active := detached + [active.value], None;
      }
      CloseFile();
    }

    /** The failure branch of `__write_batch`: latch the failure and split the batch into written and lost. */
    method AccountFailure(batch: seq<Record>, k: nat)
      requires health.lost == health.criticalLost + health.normalLost && k <= |batch|
      modifies this`health, this`disabled, this`handleOpen, this`fileSize
      ensures Valid() && Now() == Failed(old(Now()), old(Disk())) && health == Accounted(old(health), batch, k)
    {
      CloseFile();
      disabled := true;
      health := Accounted(health, batch, k);
    }

    /** The append loop: whole records one after another, up to the first append that fails. */
    method AppendRecords(batch: seq<Record>, io: Io) returns (n: nat)
      requires handleOpen && active.Some? && fileSize == |active.value|
      modifies this`active, this`fileSize
      ensures n == WholeAppends(batch, io, 0)
      ensures Disk() == Extend(old(Disk()), Lines(batch[..n])) && fileSize == |active.value|
    {
      hide Lines;
      n := 0;
      NoLines(batch);
      while n < |batch| && AppendOk(io, n)
        invariant 0 <= n <= |batch| && active.Some? && fileSize == |active.value|
        invariant active.value == ActiveOf(old(Disk())) + Lines(batch[..n])
        invariant WholeAppends(batch, io, 0) == WholeAppends(batch, io, n)
      {
        assert batch[..n + 1] == batch[..n] + [batch[n]];
        LinesAppend(batch[..n], batch[n]);
        active, fileSize := Some(active.value + LineOf(batch[n])), fileSize + |LineOf(batch[n])|;
        n := n + 1;
      }
    }

    /** The part of `__write_batch` that works on an open file. */
    method WriteOpen(batch: seq<Record>, io: Io) returns (k: nat)
      requires Valid() && handleOpen
      modifies this
      ensures (Now(), k) == old(OpenWritten(Now(), Disk(), batch, io))
      ensures Valid() && health == Accounted(old(health), batch, k)
    {
      hide Lines;
      var start := fileSize;
      k := AppendRecords(batch, io);
      if k < |batch| {
        var whole := fileSize;
        active := Some(active.value + TornPrefix(LineOf(batch[k]), io.appends[k]));
        RollBack(whole, io);
        AccountFailure(batch, k);
        return;
      }
      assert batch[..k] == batch && batch[k..] == [];
      if !io.flushOk {
        RollBack(start, io);
        AccountFailure(batch, 0);
        return 0;
      }
      health := Accounted(health, batch, k);
      if !io.pruneOk {
        disabled := true;
        CloseFile();
      }
    }

    /** `__write_batch`: every record of the batch is counted once, as written or as lost in its own lane, and disk
        and counts agree at every failure point. */
    method WriteBatch(batch: seq<Record>, io: Io) returns (k: nat)
      requires Valid()
      modifies this
      ensures (Now(), k) == old(BatchWritten(limits, Now(), batch, io))
      ensures Valid() && health == Accounted(old(health), batch, k)
      // all files together: what was there, the counted lines, and what a failed rollback left behind
      ensures Content(Disk()) == old(Content(Disk())) + Lines(batch[..k]) + old(Residue(limits, Now(), batch, io))
      // the active file: its content at batch open and exactly the counted lines
      ensures old(Recovered(limits, Now(), batch, io)) ==>
                old(Residue(limits, Now(), batch, io)) == [] &&
                ActiveOf(Disk()) == ActiveOf(old(AtOpen(limits, Now(), batch, io)).0) + Lines(batch[..k])
      ensures k < |batch| ==> disabled
      // without faults everything that fits is written
      ensures old(boundaryWritten) && Encodable(batch) && old(Smooth(limits, Now(), |Lines(batch)|, io)) ==>
                k == |batch| && !disabled
    {
      hide Lines;
      hide Opened;
      hide OpenWritten;
      hide Smooth;
      hide Content;
      hide Residue;
      hide Recovered;
      hide ActiveOf;
      SmoothBatch(limits, Now(), batch, io);
      TruthfulBatch(limits, Now(), batch, io);
      TruthfulActive(limits, Now(), batch, io);
      if !boundaryWritten || exists i | 0 <= i < |batch| :: batch[i].encoding.Unencodable? {
        k := 0;
        AccountFailure(batch, 0);
        return;
      }
      ghost var before := Now();
      var ok := OpenFile(|Lines(batch)|, io.opening);
      if ok {
        OnlyLatches(before, Disk(), batch, io);
        k := WriteOpen(batch, io);
      } else {
        k := 0;
        AccountFailure(batch, 0);
      }
    }

    /** `__publish_session_boundary`: one separately committed line before any record, or output is disabled. */
    method CommitBoundary(line: seq<Byte>, io: Io) returns (ok: bool)
      requires Valid()
      modifies this
      ensures Valid() && health == old(health)
      ensures (Now(), ok) == old(BoundaryCommitted(limits, Now(), line, io))
      ensures Content(Disk()) ==
              old(Content(Disk())) + (if ok then line else []) + old(BoundaryResidue(limits, Now(), line, io))
      ensures ok || io.rollbackOk ==> old(BoundaryResidue(limits, Now(), line, io)) == []
      ensures old(Smooth(limits, Now(), |line|, io)) ==> ok
    {
      hide Opened;
      hide Content;
      hide BoundaryResidue;
      hide TornPrefix;
      hide Smooth;
      SmoothBoundary(limits, Now(), line, io);
      TruthfulBoundary(limits, Now(), line, io);
      ok := OpenFile(|line|, io.opening);
      if ok {
        var start := fileSize;
        ok := AppendOk(io, 0) && io.flushOk;
        active := Some(active.value + if AppendOk(io, 0) then line else TornPrefix(line, io.appends[0]));
        if ok {
          fileSize, boundaryWritten := fileSize + |line|, true;
          return;
        }
        RollBack(start, io);
      }
      CloseFile();
      disabled := true;
    }
  }
}
