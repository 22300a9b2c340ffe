/**
 Whole runs of a session.  Whatever calls are made, and whatever the commands do to the disk, the
 session with its interner and mirror goes through the same histories as the plain store.  The log of
 a run says what each call amounted to; what a command found on the disk is proved from it.
 */
module Runs {
  import opened Wrappers
  import opened History
  import opened Store
  import opened Blobs
  import opened Interning
  import opened Mirror
  import opened Sessions

  /** One call; a merge names its source session and the history that session holds. */
  datatype Call =
    | Edit(op: Op)
    | Command(command: string, allowed: bool, run: Disk -> CommandRun, description: Option<string>)
    | MergeCall(
        source: Session, held: History<Contents>,
        at: Option<nat>, keys: Option<seq<string>>, description: Option<string>)

  /** Merges and commands are calls of their own. */
  predicate WellFormed(call: Call) {
    call.Edit? ==> !call.op.Merge? && !call.op.Bash?
  }

  /** The source session of a merge is as the call says. */
  ghost predicate SourceReady(call: Call)
    reads if call.MergeCall? then {call.source} else {}
  {
    call.MergeCall? ==> call.source.Valid() && call.source.View() == call.held
  }

  /**
   What a call amounted to: the mirror before and after it, the files current before it, the directory a
   command was started in, if it was, and the operation of the plain store, if there was one.
   */
  datatype Event = Event(before: Start, files: FileMap, start: Option<Start>, op: Option<Op>, after: Start)

  function Ops(log: seq<Event>): seq<Op> {
    if log == [] then []
    else
      var last := log[|log| - 1].op;
      Ops(log[..|log| - 1]) + if last.Some? then [last.value] else []
  }

  /** The history the plain store reaches by the operations in the log. */
  ghost function Reached(limits: Limits, log: seq<Event>): (h: History<Contents>)
    ensures h.Valid()
  {
    Run(limits, Initial(map[]), Ops(log))
  }

  function MirrorAfter(log: seq<Event>): Start {
    if log == [] then Start(map[], map[]) else log[|log| - 1].after
  }

  /** The operation a command stands for: one that completed records what was collected, any other nothing. */
  ghost function CommandOp(
    command: string, run: Disk -> CommandRun, description: Option<string>, start: Option<Start>): Option<Op>
  {
    if start.None? || run(start.value.disk).TimedOut? then None
    else
      var outcome := run(start.value.disk);
      Some(BashOp(command, outcome, CollectedBytes(outcome.after, start.value.synced), description))
  }

  ghost predicate Explains(call: Call, e: Event) {
    match call
    case Edit(op) => e.op == Some(op) && e.start.None? && e.after == e.before
    case MergeCall(_, held, at, keys, description) =>
      e.op == Some(MergeOp(held, at, keys, description)) && e.start.None? && e.after == e.before
    case Command(command, allowed, run, description) =>
      && MirrorMoved(e.before, e.files, allowed, run, e.start, e.after)
      && e.op == CommandOp(command, run, description, e.start)
  }

  /** Event `i` explains its call, and starts from what the events before it led to. */
  ghost predicate Explained(limits: Limits, call: Call, log: seq<Event>, i: nat)
    requires i < |log|
  {
    && Explains(call, log[i])
    && BytesOf(log[i].files) == Reached(limits, log[..i]).Current().files
    && log[i].before == MirrorAfter(log[..i])
  }

  ghost predicate ExplainedSoFar(limits: Limits, calls: seq<Call>, log: seq<Event>) {
    |log| <= |calls| && forall i | 0 <= i < |log| :: Explained(limits, calls[i], log, i)
  }

  // ----- one more event -----

  lemma {:induction false} RunOneMore(limits: Limits, h: History<Contents>, ops: seq<Op>, op: Op)
    requires h.Valid()
    ensures Run(limits, h, ops + [op]) == After(limits, Run(limits, h, ops), op)
    decreases |ops|
  {
    if ops == [] {
      assert ops + [op] == [op];
    } else {
      assert (ops + [op])[1..] == ops[1..] + [op];
      RunOneMore(limits, After(limits, h, ops[0]), ops[1..], op);
    }
  }

  lemma LogOneMore(limits: Limits, log: seq<Event>, event: Event)
    ensures Reached(limits, log + [event])
         == if event.op.Some? then After(limits, Reached(limits, log), event.op.value) else Reached(limits, log)
    ensures (log + [event])[..|log|] == log
    ensures forall i | 0 <= i < |log| :: (log + [event])[..i] == log[..i]
  {
    assert (log + [event])[..|log|] == log;
    if event.op.Some? {
      RunOneMore(limits, Initial(map[]), Ops(log), event.op.value);
    } else {
      assert Ops(log) + [] == Ops(log);
    }
  }

  lemma ExplainedOneMore(limits: Limits, calls: seq<Call>, log: seq<Event>, event: Event)
    requires |log| < |calls| && ExplainedSoFar(limits, calls, log)
    requires Explains(calls[|log|], event) && event.before == MirrorAfter(log)
    requires BytesOf(event.files) == Reached(limits, log).Current().files
    ensures ExplainedSoFar(limits, calls, log + [event])
  {
    LogOneMore(limits, log, event);
    forall i | 0 <= i <= |log|
      ensures Explained(limits, calls[i], log + [event], i)
    {
      assert i < |log| ==> Explained(limits, calls[i], log, i);
    }
  }

  // ----- the contents that occur in a run -----

  /** The contents an operation brings in; a merge brings in blobs, and is kept apart. */
  function OpTexts(op: Op): set<Bytes> {
    match op
    case Write(entries, _, _) => WrittenTexts(entries)
    case Bash(_, collected, _) => collected.Values
    case _ => {}
  }

  function LogTexts(log: seq<Event>): set<Bytes> {
    if log == [] then {}
    else
      var last := log[|log| - 1].op;
      LogTexts(log[..|log| - 1]) + if last.Some? then OpTexts(last.value) else {}
  }

  ghost function HistoryTexts(h: History<Contents>): set<Bytes> {
    set i, key | 0 <= i < |h.checkpoints| && key in h.checkpoints[i].files :: h.checkpoints[i].files[key]
  }

  lemma TextsOfHistory(h: History<FileMap>)
    ensures Texts(HistoryBlobs(h.checkpoints)) == HistoryTexts(Plain(h))
  {
    forall i, key | 0 <= i < |h.checkpoints| && key in h.checkpoints[i].files
      ensures h.checkpoints[i].files[key] in HistoryBlobs(h.checkpoints)
      ensures h.checkpoints[i].files[key].bytes in HistoryTexts(Plain(h))
    {
      assert Plain(h).checkpoints[i].files[key] == h.checkpoints[i].files[key].bytes;
    }
  }

  /** Every file map of `after` is one of `before`'s, or the new one. */
  lemma TextsFrom(before: History<Contents>, after: History<Contents>, files: Contents)
    requires forall i | 0 <= i < |after.checkpoints| :: FilesFrom(before, after.checkpoints[i].files, files)
    ensures HistoryTexts(after) <= HistoryTexts(before) + files.Values
  {
    forall i, key | 0 <= i < |after.checkpoints| && key in after.checkpoints[i].files
      ensures after.checkpoints[i].files[key] in HistoryTexts(before) + files.Values
    {
      assert FilesFrom(before, after.checkpoints[i].files, files);
    }
  }

  ghost predicate FilesFrom(h: History<Contents>, some: Contents, files: Contents) {
    some == files || exists p :: 0 <= p < |h.checkpoints| && h.checkpoints[p].files == some
  }

  lemma PushedTexts(h: History<Contents>, files: Contents, outcome: Outcome, tool: string, description: Option<string>)
    requires h.Valid()
    ensures HistoryTexts(Pushed(h, files, outcome, tool, description)) <= HistoryTexts(h) + files.Values
  {
    var after := Pushed(h, files, outcome, tool, description);
    assert forall i | 0 <= i <= h.head :: after.checkpoints[i] == h.checkpoints[i];
    TextsFrom(h, after, files);
  }

  lemma SquashedTexts(h: History<Contents>, from: nat, to: nat, name: Option<string>)
    requires h.Valid() && 1 <= from <= to < |h.checkpoints|
    ensures HistoryTexts(Squashed(h, from, to, name)) <= HistoryTexts(h)
  {
    var after := Squashed(h, from, to, name);
    SquashedAt(h, from, to, name);
    forall i | 0 <= i < |after.checkpoints|
      ensures FilesFrom(h, after.checkpoints[i].files, map[])
    {
      if i != from {
        SquashedElsewhere(h, from, to, name, i);
      }
      assert after.checkpoints[i].files == h.checkpoints[Origin(i, from, to)].files;
    }
    TextsFrom(h, after, map[]);
  }

  lemma DroppedTexts(h: History<Contents>, from: nat, to: nat)
    requires h.Valid() && 1 <= from <= to < |h.checkpoints| && (h.head < from || to < h.head)
    ensures HistoryTexts(Dropped(h, from, to)) <= HistoryTexts(h)
  {
    var after := Dropped(h, from, to);
    forall i | 0 <= i < |after.checkpoints|
      ensures FilesFrom(h, after.checkpoints[i].files, map[])
    {
      assert after.checkpoints[i].files == h.checkpoints[if i < from then i else i + (to - from + 1)].files;
    }
    TextsFrom(h, after, map[]);
  }

  lemma {:induction false} InsertedTexts(files: Contents, entries: seq<(string, Bytes)>)
    ensures Inserted(files, entries).Values <= files.Values + WrittenTexts(entries)
    decreases |entries|
  {
    if entries != [] {
      var (path, content) := entries[0];
      InsertedTexts(files[path := content], entries[1..]);
      assert content in WrittenTexts(entries);
      assert WrittenTexts(entries[1..]) <= WrittenTexts(entries) by {
        forall i | 0 <= i < |entries[1..]|
          ensures entries[1..][i].1 in WrittenTexts(entries)
        {
          assert entries[1..][i] == entries[i + 1];
        }
      }
      assert files[path := content].Values <= files.Values + {content};
    }
  }

  lemma {:induction false} RemovedTexts(files: Contents, paths: seq<string>)
    requires Removed(files, paths).Success?
    ensures Removed(files, paths).value.Values <= files.Values
    decreases |paths|
  {
    if paths != [] {
      RemovedTexts(files - {paths[0]}, paths[1..]);
    }
  }

  /** No operation but a merge shows contents that the history did not hold and the operation did not bring in. */
  lemma AfterTexts(limits: Limits, h: History<Contents>, op: Op)
    requires h.Valid() && !op.Merge?
    ensures HistoryTexts(After(limits, h, op)) <= HistoryTexts(h) + OpTexts(op)
  {
    if Apply(limits, h, op).Success? {
      AppliedTexts(limits, h, op);
    }
  }

  lemma AppliedTexts(limits: Limits, h: History<Contents>, op: Op)
    requires h.Valid() && !op.Merge? && Apply(limits, h, op).Success?
    ensures HistoryTexts(Apply(limits, h, op).value) <= HistoryTexts(h) + OpTexts(op)
  {
    var files := h.Current().files;
    assert files.Values <= HistoryTexts(h);
    match op
    case Write(entries, tool, description) =>
      InsertedTexts(files, entries);
      PushedTexts(h, Inserted(files, entries), NO_OUTCOME, tool, description);
    case Delete(paths, description) =>
      RemovedTexts(files, paths);
      PushedTexts(h, Removed(files, paths).value, NO_OUTCOME, "session_delete_files", description);
    case Bash(outcome, collected, description) => PushedTexts(h, collected, outcome, "session_bash", description);
    case Squash(from, to, name) => SquashedTexts(h, from, to, name);
    case Drop(from, to) => DroppedTexts(h, from, to);
    case Rollback(target) => SameFilesSameTexts(h, h.(head := target));
    case Label(target, text) => SameFilesSameTexts(h, Labelled(h, target, text));
    case Record(at, step) => SameFilesSameTexts(h, StepRecorded(h, if at.Some? then at.value else h.head, step));
  }

  lemma SameFilesSameTexts(a: History<Contents>, b: History<Contents>)
    requires |a.checkpoints| == |b.checkpoints|
    requires forall i | 0 <= i < |a.checkpoints| :: a.checkpoints[i].files == b.checkpoints[i].files
    ensures HistoryTexts(b) <= HistoryTexts(a)
  {
  }

  // ----- performing calls -----

  method PerformEdit(s: Session, op: Op)
    requires s.Valid() && !op.Merge? && !op.Bash?
    modifies s`checkpoints, s`checkpointIdx, s.interner
    ensures s.Valid() && s.View() == After(s.limits, old(s.View()), op)
    ensures old(s.Interned()) && CollisionFree(s.interner.hash, old(HistoryTexts(s.View())) + OpTexts(op))
            ==> s.Interned()
  {
    TextsOfHistory(s.Hist());
    match op {
      case Write(entries, tool, description) => var _ := s.WriteFiles(entries, tool, description);
      case Delete(paths, description) => var _ := s.DeleteFiles(paths, description);
      case Rollback(target) => var _ := s.Rollback(target);
      case Squash(from, to, name) => var _ := s.SquashCheckpoints(from, to, name);
      case Drop(from, to) => var _ := s.DropCheckpoints(from, to);
      case Label(target, text) => var _ := s.SetCheckpointLabel(target, text);
      case Record(at, step) => s.RecordStep(at, step);
    }
  }

  method PerformCommand(
    s: Session, command: string, allowed: bool, run: Disk -> CommandRun, description: Option<string>)
    returns (ghost start: Option<Start>)
    requires s.Valid()
    modifies s`checkpoints, s`checkpointIdx, s`workspace, s.interner, s.workspace
    ensures s.Valid() && (s.workspace == old(s.workspace) || fresh(s.workspace))
    ensures MirrorMoved(old(s.MirrorState()), old(s.Hist()).Current().files, allowed, run, start, s.MirrorState())
    ensures var op := CommandOp(command, run, description, start);
            s.View() == if op.Some? then After(s.limits, old(s.View()), op.value) else old(s.View())
    ensures old(s.Interned())
            && CollisionFree(s.interner.hash, old(HistoryTexts(s.View())) + CollectedTexts(run, start))
            ==> s.Interned()
  {
    TextsOfHistory(s.Hist());
    ghost var before := s.View();
    var r, found := s.ExecuteBash(command, allowed, run, description);
    start := found;
    if start.Some? {
      RecordedAfter(command, run, start.value, description, s.limits, before, s.View(), r);
    }
  }

  lemma CommandTexts(command: string, run: Disk -> CommandRun, description: Option<string>, start: Option<Start>)
    ensures CollectedTexts(run, start)
         == match CommandOp(command, run, description, start) case Some(op) => OpTexts(op) case None => {}
  {
  }

  lemma RecordedAfter(
    command: string, run: Disk -> CommandRun, start: Start, description: Option<string>,
    limits: Limits, before: History<Contents>, after: History<Contents>, answer: Answer)
    requires before.Valid()
    requires Recorded(command, run(start.disk), start.synced, description, limits, before, after, answer)
    ensures var op := CommandOp(command, run, description, Some(start));
            after == if op.Some? then After(limits, before, op.value) else before
  {
    var op := CommandOp(command, run, description, Some(start));
    if op.Some? {
      assert Answered(limits, before, op.value, after, answer);
    }
  }

  method Perform(s: Session, call: Call) returns (ghost event: Event)
    requires s.Valid() && WellFormed(call)
    requires SourceReady(call) && (call.MergeCall? ==> call.source != s)
    modifies s`checkpoints, s`checkpointIdx, s`workspace, s.interner, s.workspace
    ensures s.Valid() && (s.workspace == old(s.workspace) || fresh(s.workspace))
    ensures Explains(call, event) && event.files == old(s.Hist()).Current().files
    ensures event.before == old(s.MirrorState()) && event.after == s.MirrorState()
    ensures s.View() == (if event.op.Some? then After(s.limits, old(s.View()), event.op.value) else old(s.View()))
    ensures !call.MergeCall? && old(s.Interned())
            && CollisionFree(s.interner.hash, old(HistoryTexts(s.View())) + EventTexts(event))
            ==> s.Interned()
  {
    ghost var before, files := s.MirrorState(), s.Hist().Current().files;
    match call {
      case Edit(op) =>
        PerformEdit(s, op);
        event := Event(before, files, None, Some(op), before);
      case Command(command, allowed, run, description) =>
        ghost var start := PerformCommand(s, command, allowed, run, description);
        CommandTexts(command, run, description, start);
        event := Event(before, files, start, CommandOp(command, run, description, start), s.MirrorState());
      case MergeCall(source, held, at, keys, description) =>
        var _ := s.MergeFrom(source, at, keys, description);
        event := Event(before, files, None, Some(MergeOp(held, at, keys, description)), before);
    }
  }

  function EventTexts(event: Event): set<Bytes> {
    if event.op.Some? then OpTexts(event.op.value) else {}
  }

  ghost predicate NoMerges(calls: seq<Call>) {
    forall i | 0 <= i < |calls| :: !calls[i].MergeCall?
  }

  /** The session is where the log says: history, mirror and sharing. */
  ghost predicate Follows(s: Session, limits: Limits, hash: Bytes -> int, calls: seq<Call>, log: seq<Event>)
    reads s, s.interner, s.workspace
  {
    && s.Valid() && s.limits == limits && s.interner.hash == hash
    && ExplainedSoFar(limits, calls, log)
    && s.View() == Reached(limits, log)
    && s.MirrorState() == MirrorAfter(log)
    && (NoMerges(calls) ==> HistoryTexts(s.View()) <= LogTexts(log))
    && (NoMerges(calls) && CollisionFree(hash, LogTexts(log)) ==> s.Interned())
  }

  method ReplayNext(
    s: Session, call: Call, ghost limits: Limits, hash: Bytes -> int, ghost calls: seq<Call>, ghost log: seq<Event>)
    returns (ghost longer: seq<Event>)
    requires Follows(s, limits, hash, calls, log) && |log| < |calls| && call == calls[|log|]
    requires WellFormed(call) && SourceReady(call) && (call.MergeCall? ==> call.source != s)
    modifies s`checkpoints, s`checkpointIdx, s`workspace, s.interner, s.workspace
    ensures Follows(s, limits, hash, calls, longer) && |longer| == |log| + 1
    ensures s.workspace == old(s.workspace) || fresh(s.workspace)
  {
    ghost var reached := s.View();
    ghost var event := Perform(s, call);
    longer := log + [event];
    LogOneMore(limits, log, event);
    ExplainedOneMore(limits, calls, log, event);
    if NoMerges(calls) {
      TextsOneMore(limits, hash, reached, log, event);
    }
  }

  /**
   Every run.  The history is the plain store's, each call did to history and mirror what its event says,
   and without merges, if no two of the contents written or collected collide, equal contents anywhere in
   the history are one allocation.
   */
  method Replay(limits: Limits, hash: Bytes -> int, calls: seq<Call>) returns (s: Session, ghost log: seq<Event>)
    requires forall i | 0 <= i < |calls| :: WellFormed(calls[i]) && SourceReady(calls[i])
    ensures fresh(s) && s.Valid()
    ensures |log| == |calls| && ExplainedSoFar(limits, calls, log)
    ensures s.View() == Reached(limits, log) && s.MirrorState() == MirrorAfter(log)
    ensures NoMerges(calls) && CollisionFree(hash, LogTexts(log)) ==> Shared(HistoryBlobs(s.checkpoints))
  {
    s := new Session(limits, hash);
    log := [];
    for n := 0 to |calls|
      invariant fresh(s) && fresh(s.interner) && (s.workspace == null || fresh(s.workspace))
      invariant forall i | 0 <= i < |calls| :: SourceReady(calls[i])
      invariant |log| == n && Follows(s, limits, hash, calls, log)
    {
      log := ReplayNext(s, calls[n], limits, hash, calls, log);
    }
    if NoMerges(calls) && CollisionFree(hash, LogTexts(log)) {
      CanonicalIsShared(hash, s.interner.table, HistoryBlobs(s.checkpoints));
    }
  }

  lemma TextsOneMore(limits: Limits, hash: Bytes -> int, h: History<Contents>, log: seq<Event>, event: Event)
    requires h.Valid() && HistoryTexts(h) <= LogTexts(log) && (event.op.Some? ==> !event.op.value.Merge?)
    ensures LogTexts(log + [event]) == LogTexts(log) + EventTexts(event)
    ensures var after := if event.op.Some? then After(limits, h, event.op.value) else h;
            HistoryTexts(after) <= LogTexts(log + [event])
    ensures CollisionFree(hash, LogTexts(log + [event])) ==>
              CollisionFree(hash, LogTexts(log)) && CollisionFree(hash, HistoryTexts(h) + EventTexts(event))
  {
    assert (log + [event])[..|log|] == log;
    if event.op.Some? {
      AfterTexts(limits, h, event.op.value);
    }
  }

  // ----- what commands find -----

  /** A command finds exactly the current files if and only if nothing the sync skips had been spoilt before it. */
  lemma CommandFindsFiles(limits: Limits, calls: seq<Call>, log: seq<Event>, i: nat)
    requires ExplainedSoFar(limits, calls, log) && i < |log| && log[i].start.Some?
    ensures DiskBytes(log[i].start.value.disk) == Reached(limits, log[..i]).Current().files
            <==> Unspoilt(log[i].before.disk, log[i].before.synced, log[i].files)
  {
    assert Explained(limits, calls[i], log, i);
    SyncIsExact(log[i].before.disk, log[i].before.synced, log[i].files);
  }

  /** The command completed, and every change it made shows in a file's time or length. */
  ghost predicate Behaved(call: Call, e: Event) {
    call.Command? && e.start.Some? ==>
      call.run(e.start.value.disk).Completed? && Detectable(e.start.value.disk, e.after.disk)
  }

  /** As long as commands behave, the mirror is right. */
  lemma {:induction false} MirrorStaysRight(limits: Limits, calls: seq<Call>, log: seq<Event>, i: nat)
    requires ExplainedSoFar(limits, calls, log) && i <= |log|
    requires forall j | 0 <= j < i :: Behaved(calls[j], log[j])
    ensures Agree(MirrorAfter(log[..i]).disk, MirrorAfter(log[..i]).synced)
  {
    if i > 0 {
      MirrorStaysRight(limits, calls, log, i - 1);
      assert Explained(limits, calls[i - 1], log, i - 1) && Behaved(calls[i - 1], log[i - 1]);
      var e := log[i - 1];
      assert MirrorAfter(log[..i]) == e.after;
      if e.start.Some? {
        DetectableIsTrustworthy(e.start.value.disk, e.start.value.synced, e.after.disk);
      }
    }
  }

  /**
   In a run in which every command so far behaved, an allowed command starts, finds exactly the files of the
   checkpoint current at that moment and, if it behaves too, is recorded with exactly what it left behind.
   */
  lemma CommandsSeeCurrentFiles(limits: Limits, calls: seq<Call>, log: seq<Event>, i: nat)
    requires ExplainedSoFar(limits, calls, log) && i < |log| && calls[i].Command? && calls[i].allowed
    requires forall j | 0 <= j < i :: Behaved(calls[j], log[j])
    ensures log[i].start.Some?
    ensures DiskBytes(log[i].start.value.disk) == Reached(limits, log[..i]).Current().files
    ensures Behaved(calls[i], log[i]) ==>
              log[i].op == Some(BashOp(
                calls[i].command, calls[i].run(log[i].start.value.disk), DiskBytes(log[i].after.disk),
                                       calls[i].description))
  {
    MirrorStaysRight(limits, calls, log, i);
    assert Explained(limits, calls[i], log, i);
    var e := log[i];
    DetectableIsTrustworthy(e.start.value.disk, e.start.value.synced, e.after.disk);
    CollectIsFullRead(e.after.disk, e.start.value.synced);
  }

  /**
   It does not hold of every run: a command that alters a file and then times out is not collected, and the
   next one finds the altered file although the history never saw it.
   */
  method TimeoutSpoilsMirror(hash: Bytes -> int, path: string, content: Bytes, altered: DiskFile)
    returns (s: Session, ghost start: Option<Start>)
    requires ValidKey(path) && altered.bytes != content
    ensures s.Valid() && s.View().Current().files == map[path := content]
    ensures start.Some? && DiskBytes(start.value.disk) == map[path := altered.bytes]
  {
    s := new Session(Limits(None, None), hash);
    var _ := s.WriteFiles([(path, content)], "session_write_files", None);
    WriteOne(path, content);
    assert BytesOf(s.Hist().Current().files) == s.View().Current().files;
    assert BytesOf(s.Hist().Current().files).Keys == {path};
    start := SpoilThenStart(s, path, altered);
  }

  /** A command that alters the only file and times out, and the next command. */
  method SpoilThenStart(s: Session, path: string, altered: DiskFile) returns (ghost start: Option<Start>)
    requires s.Valid() && s.workspace == null && s.Hist().Current().files.Keys == {path}
    modifies s`checkpoints, s`checkpointIdx, s`workspace, s.interner
    ensures s.Valid() && s.Hist() == old(s.Hist())
    ensures start.Some? && DiskBytes(start.value.disk) == map[path := altered.bytes]
  {
    ghost var files := s.Hist().Current().files;
    var _, first := s.ExecuteBash("", true, (disk: Disk) => TimedOut(map[path := altered]), None);
    SpoiltFileIsKept(s.MirrorState(), files, path, altered);
    var _, second := s.ExecuteBash("", true, (disk: Disk) => TimedOut(disk), None);
    start := second;
  }

  lemma SpoiltFileIsKept(spoilt: Start, files: FileMap, path: string, altered: DiskFile)
    requires files.Keys == {path} && spoilt.disk == map[path := altered] && spoilt.synced.Keys == {path}
    requires spoilt.synced[path].content == files[path]
    ensures CanStart(spoilt, files) && SyncedBytes(spoilt.disk, spoilt.synced, files) == map[path := altered.bytes]
  {
    assert Kept(spoilt.synced, files, path);
  }

  lemma WriteOne(path: string, content: Bytes)
    requires ValidKey(path)
    ensures var write := Write([(path, content)], "session_write_files", None);
            var after := Apply(Limits(None, None), Initial(map[]), write);
            after.Success? && after.value.Valid() && after.value.Current().files == map[path := content]
  {
    var entries := [(path, content)];
    assert entries[1..] == [];
    assert FirstInvalid(entries) == None;
    assert Inserted(map[], entries) == map[path := content];
  }

  /** A merge can break the sharing: a content the history already holds, taken over as a second allocation. */
  lemma MergeBreaksSharing(mine: Blob, theirs: Blob, path: string, other: string, description: Option<string>)
    requires mine != theirs && mine.bytes == theirs.bytes && path != other
    ensures var before := Initial(map[path := mine]);
            && Shared(HistoryBlobs(before.checkpoints))
            && !MergeIsShared(before, map[other := theirs], None)
  {
    var before := Initial(map[path := mine]);
    BlobsOfInitial(map[path := mine]);
    assert before.checkpoints[..before.head + 1] == before.checkpoints;
    var source := map[other := theirs];
    assert source[other] in Chosen(source, None).Values && before.checkpoints[0].files[path] == mine;
  }
}
