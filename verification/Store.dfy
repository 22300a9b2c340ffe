/**
 The checkpoint store on plain maps from key to bytes: what a session promises, without the
 sharing, hashing and on-disk mirror that `Session` implements it with.
 */
module Store {
  import opened Wrappers
  import opened History

  newtype byte = b: int | 0 <= b < 256
  type Bytes = seq<byte>
  type Contents = map<string, Bytes>

  const BYTES_PER_MB := 1024 * 1024

  /** The two limits a session checks; `None` switches a check off. */
  datatype Limits = Limits(maxCheckpoints: Option<nat>, maxWorkspaceMb: Option<nat>)

  // ----- sizes -----

  ghost function TotalBytes(files: Contents): nat {
    if files == map[] then 0
    else
      var key :| key in files;
      |files[key]| + TotalBytes(files - {key})
  }

  lemma {:induction false} TotalBytesWithout(files: Contents, key: string)
    requires key in files
    ensures TotalBytes(files) == |files[key]| + TotalBytes(files - {key})
    decreases |files|
  {
    var chosen :| chosen in files && TotalBytes(files) == |files[chosen]| + TotalBytes(files - {chosen});
    if chosen != key {
      TotalBytesWithout(files - {chosen}, key);
      TotalBytesWithout(files - {key}, chosen);
      assert files - {chosen} - {key} == files - {key} - {chosen};
    }
  }

  lemma TotalBytesShrinks(files: Contents, key: string)
    ensures TotalBytes(files - {key}) <= TotalBytes(files)
  {
    if key in files {
      TotalBytesWithout(files, key);
    } else {
      assert files - {key} == files;
    }
  }

  ghost predicate Fits(limits: Limits, files: Contents) {
    limits.maxWorkspaceMb.Some? ==> TotalBytes(files) <= limits.maxWorkspaceMb.value * BYTES_PER_MB
  }

  // ----- keys -----

  function Components(path: string): (r: seq<string>)
    ensures r != []
  {
    if path == "" then [""]
    else
      var rest := Components(path[1..]);
      if path[0] == '/' then [""] + rest else [[path[0]] + rest[0]] + rest[1..]
  }

  /** A key is a non-empty relative path that never climbs with `..`. */
  predicate ValidKey(key: string) {
    key != "" && key[0] != '/' && ".." !in Components(key)
  }

  // ----- edits of a file map, for bytes and for blobs alike -----

  function Inserted<V>(files: map<string, V>, entries: seq<(string, V)>): map<string, V>
    decreases |entries|
  {
    if entries == [] then files
    else Inserted(files[entries[0].0 := entries[0].1], entries[1..])
  }

  function Removed<V>(files: map<string, V>, paths: seq<string>): Result<map<string, V>> {
    if paths == [] then Success(files)
    else if paths[0] !in files then Failure(FileNotFound(paths[0]))
    else Removed(files - {paths[0]}, paths[1..])
  }

  /** `files` overlaid with the named keys of `source`, or with all of them. */
  function Overlaid<V>(files: map<string, V>, source: map<string, V>, keys: Option<seq<string>>)
    : Result<map<string, V>>
  {
    match keys
    case None => Success(files + source)
    case Some(ks) => Picked(files, source, ks)
  }

  function Picked<V>(files: map<string, V>, source: map<string, V>, keys: seq<string>): Result<map<string, V>>
    decreases |keys|
  {
    if keys == [] then Success(files)
    else if keys[0] !in source then Failure(FileNotFound(keys[0]))
    else Picked(files[keys[0] := source[keys[0]]], source, keys[1..])
  }

  // ----- operations -----

  /** One call on a session, with everything the outside world decides. */
  datatype Op =
    | Write(entries: seq<(string, Bytes)>, writer: string, description: Option<string>)
    | Delete(paths: seq<string>, description: Option<string>)
    | Merge(sourceId: nat, source: Option<Contents>, keys: Option<seq<string>>, description: Option<string>)
    | Bash(outcome: Outcome, collected: Contents, description: Option<string>)
    | Rollback(target: nat)
    | Squash(from: nat, to: nat, name: Option<string>)
    | Drop(from: nat, to: nat)
    | Label(target: nat, text: string)
    | Record(at: Option<nat>, step: Step)

  type Outcomes = Result<History<Contents>>

  ghost function PushedWithin(
    limits: Limits, h: History<Contents>, files: Contents, outcome: Outcome, tool: string, description: Option<string>)
    : Outcomes
    requires h.Valid()
  {
    if limits.maxCheckpoints.Some? && |h.checkpoints| >= limits.maxCheckpoints.value
    then Failure(CheckpointLimitReached(limits.maxCheckpoints.value))
    else Success(Pushed(h, files, outcome, tool, description))
  }

  ghost function PushedIfFits(
    limits: Limits, h: History<Contents>, files: Contents, outcome: Outcome, tool: string, description: Option<string>)
    : Outcomes
    requires h.Valid()
  {
    if !Fits(limits, files) then Failure(WorkspaceSizeExceeded)
    else PushedWithin(limits, h, files, outcome, tool, description)
  }

  function FirstInvalid<V>(entries: seq<(string, V)>): Option<string> {
    if entries == [] then None
    else if !ValidKey(entries[0].0) then Some(entries[0].0)
    else FirstInvalid(entries[1..])
  }

  function CheckedRange(from: nat, to: nat, length: nat): Option<Error> {
    if from < 1 then Some(RangeStartsAtZero)
    else if from > to then Some(RangeReversed)
    else if to >= length then Some(CheckpointNotFound(to))
    else None
  }

  /** What a call does to the history, or the error it reports without touching it. */
  ghost function Apply(limits: Limits, h: History<Contents>, op: Op): Outcomes
    requires h.Valid()
  {
    var files := h.Current().files;
    match op
    case Write(entries, tool, description) =>
      var invalid := FirstInvalid(entries);
      if invalid.Some? then Failure(InvalidWorkspacePath(invalid.value))
      else PushedIfFits(limits, h, Inserted(files, entries), NO_OUTCOME, tool, description)
    case Delete(paths, description) =>
      var removed := Removed(files, paths);
      if removed.Failure? then Failure(removed.error)
      else PushedWithin(limits, h, removed.value, NO_OUTCOME, "session_delete_files", description)
    case Merge(sourceId, source, keys, description) =>
      if source.None? then Failure(CheckpointNotFound(sourceId))
      else
        var merged := Overlaid(files, source.value, keys);
        if merged.Failure? then Failure(merged.error)
        else PushedIfFits(limits, h, merged.value, NO_OUTCOME, "session_merge", description)
    case Bash(outcome, collected, description) =>
      PushedIfFits(limits, h, collected, outcome, "session_bash", description)
    case Rollback(target) =>
      if target >= |h.checkpoints| then Failure(CheckpointNotFound(target)) else Success(h.(head := target))
    case Squash(from, to, name) =>
      var refused := CheckedRange(from, to, |h.checkpoints|);
      if refused.Some? then Failure(refused.value) else Success(Squashed(h, from, to, name))
    case Drop(from, to) =>
      var refused := CheckedRange(from, to, |h.checkpoints|);
      if refused.Some? then Failure(refused.value)
      else if from <= h.head <= to then Failure(DropsCurrentCheckpoint)
      else Success(Dropped(h, from, to))
    case Label(target, text) =>
      if target >= |h.checkpoints| then Failure(CheckpointNotFound(target)) else Success(Labelled(h, target, text))
    case Record(at, step) =>
      Success(StepRecorded(h, if at.Some? then at.value else h.head, step))
  }

  /** A new session starts from the files of one checkpoint of another. */
  function Forked<F>(h: History<F>, at: Option<nat>): Result<History<F>> {
    var i := if at.Some? then at.value else h.head;
    if i >= |h.checkpoints| then Failure(CheckpointNotFound(i)) else Success(Initial(h.checkpoints[i].files))
  }

  // ----- invariants of every run -----

  /** Ids are indices, the head is in range, and both limits hold of the whole history. */
  ghost predicate Bounded(limits: Limits, h: History<Contents>) {
    && h.Valid()
    && (limits.maxCheckpoints.Some? ==> |h.checkpoints| <= 1 || |h.checkpoints| <= limits.maxCheckpoints.value)
    && forall i | 0 <= i < |h.checkpoints| :: Fits(limits, h.checkpoints[i].files)
  }

  /** Deleting never grows a workspace, which is why it need not check the size again. */
  lemma {:induction false} RemovedFits(limits: Limits, files: Contents, paths: seq<string>)
    requires Fits(limits, files) && Removed(files, paths).Success?
    ensures Fits(limits, Removed(files, paths).value)
  {
    if paths != [] {
      TotalBytesShrinks(files, paths[0]);
      RemovedFits(limits, files - {paths[0]}, paths[1..]);
    }
  }

  lemma ApplyKeepsValid(limits: Limits, h: History<Contents>, op: Op)
    requires h.Valid() && Apply(limits, h, op).Success?
    ensures Apply(limits, h, op).value.Valid()
  {
    if op.Squash? {
      SquashKeepsSurvivors(h, op.from, op.to, op.name);
    } else if op.Drop? {
      DropKeepsSurvivors(h, op.from, op.to);
    }
  }

  lemma ApplyKeepsBounds(limits: Limits, h: History<Contents>, op: Op)
    requires Bounded(limits, h) && Apply(limits, h, op).Success?
    ensures Bounded(limits, Apply(limits, h, op).value)
  {
    match op
    case Write(entries, tool, description) =>
      PushKeepsBounds(limits, h, Inserted(h.Current().files, entries), NO_OUTCOME, tool, description);
    case Delete(paths, description) =>
      RemovedFits(limits, h.Current().files, paths);
      var left := Removed(h.Current().files, paths).value;
      PushKeepsBounds(limits, h, left, NO_OUTCOME, "session_delete_files", description);
    case Merge(_, source, keys, description) =>
      var merged := Overlaid(h.Current().files, source.value, keys).value;
      PushKeepsBounds(limits, h, merged, NO_OUTCOME, "session_merge", description);
    case Bash(outcome, collected, description) =>
      PushKeepsBounds(limits, h, collected, outcome, "session_bash", description);
    case Squash(from, to, name) => SquashKeepsBounds(limits, h, from, to, name);
    case Drop(from, to) => DropKeepsBounds(limits, h, from, to);
    case Rollback(_) =>
    case Label(_, _) =>
    case Record(_, _) =>
  }

  lemma PushKeepsBounds(
    limits: Limits, h: History<Contents>, files: Contents, outcome: Outcome, tool: string, description: Option<string>)
    requires Bounded(limits, h) && Fits(limits, files)
    requires PushedWithin(limits, h, files, outcome, tool, description).Success?
    ensures Bounded(limits, Pushed(h, files, outcome, tool, description))
  {
    var pushed := Pushed(h, files, outcome, tool, description);
    assert forall i | 0 <= i <= h.head :: pushed.checkpoints[i] == h.checkpoints[i];
  }

  lemma SquashKeepsBounds(limits: Limits, h: History<Contents>, from: nat, to: nat, name: Option<string>)
    requires Bounded(limits, h) && 1 <= from <= to < |h.checkpoints|
    ensures Bounded(limits, Squashed(h, from, to, name))
  {
    SquashKeepsSurvivors(h, from, to, name);
    var removed := to - from;
    var s := Squashed(h, from, to, name).checkpoints;
    forall q | 0 <= q < |s|
      ensures Fits(limits, s[q].files)
    {
      var p := if q < from then q else q + (to - from);
      assert q != from ==> Moved(h.checkpoints, p, s, Survivor(p, to, removed));
    }
  }

  lemma DropKeepsBounds(limits: Limits, h: History<Contents>, from: nat, to: nat)
    requires Bounded(limits, h) && 1 <= from <= to < |h.checkpoints| && (h.head < from || to < h.head)
    ensures Bounded(limits, Dropped(h, from, to))
  {
    DropKeepsSurvivors(h, from, to);
    var removed := to - from + 1;
    var d := Dropped(h, from, to).checkpoints;
    forall q | 0 <= q < |d|
      ensures Fits(limits, d[q].files)
    {
      var p := if q < from then q else q + (to - from + 1);
      assert Moved(h.checkpoints, p, d, Survivor(p, to, removed));
    }
  }

  /** A refused call leaves the session as it was. */
  ghost function After(limits: Limits, h: History<Contents>, op: Op): (r: History<Contents>)
    requires h.Valid()
    ensures r.Valid()
  {
    var r := Apply(limits, h, op);
    if r.Success? then
      ApplyKeepsValid(limits, h, op);
      r.value
    else h
  }

  ghost function Run(limits: Limits, h: History<Contents>, ops: seq<Op>): (r: History<Contents>)
    requires h.Valid()
    ensures r.Valid()
    decreases |ops|
  {
    if ops == [] then h else Run(limits, After(limits, h, ops[0]), ops[1..])
  }

  function RanCommand(command: string, collected: Contents): Op {
    Bash(Outcome("", "", Some(command), Some(0)), collected, None)
  }

  /** A session that ran one command and then another. */
  ghost function TwoCommands(first: string, second: string, collected: Contents): (h: History<Contents>)
    ensures h.Valid()
  {
    Run(Limits(None, None), Initial(map[]), [RanCommand(first, collected), RanCommand(second, collected)])
  }

  lemma TwoCommandsRecorded(first: string, second: string, collected: Contents)
    ensures var cs := TwoCommands(first, second, collected).checkpoints;
            |cs| == 3 && cs[1].command == Some(first) && cs[2].command == Some(second)
  {
    var limits, start := Limits(None, None), Initial<Contents>(map[]);
    var ops := [RanCommand(first, collected), RanCommand(second, collected)];
    assert ops[1..] == [RanCommand(second, collected)] && ops[1..][1..] == [];
    var once := After(limits, start, ops[0]);
    assert once.checkpoints[1].command == Some(first) && |once.checkpoints| == 2;
    assert Run(limits, start, ops) == Run(limits, once, ops[1..]) == After(limits, once, ops[1]);
  }

  /** The exception to squashing in two steps comes about: an empty command, and then another. */
  lemma EmptyCommandBreaksTwoSteps(command: string, collected: Contents)
    ensures var h := TwoCommands("", command, collected);
            && |h.checkpoints| == 3
            && |Squashed(h, 1, 1, None).checkpoints| == 3
            && Squashed(Squashed(h, 1, 1, None), 1, 2, None) != Squashed(h, 1, 2, None)
  {
    var h := TwoCommands("", command, collected);
    TwoCommandsRecorded("", command, collected);
    SquashInTwoSteps(h, 1, 1, 2, None, None);
    MeetsException(h.checkpoints, command);
  }

  lemma MeetsException<F>(cs: seq<Checkpoint<F>>, command: string)
    requires |cs| == 3 && cs[1].command == Some("") && cs[2].command == Some(command)
    ensures OnlyAnEmptyCommand(cs[1..2]) && HasCommand(cs[2..3])
  {
    assert cs[1..2] == [cs[1]] && cs[2..3] == [cs[2]];
    PresentOne(cs[1].command);
    PresentOne(cs[2].command);
    assert Commands(cs[1..2]) == [Some("")] && Commands(cs[2..3]) == [Some(command)];
  }

  lemma {:induction false} RunKeepsBounds(limits: Limits, h: History<Contents>, ops: seq<Op>)
    requires Bounded(limits, h)
    ensures Bounded(limits, Run(limits, h, ops))
    decreases |ops|
  {
    if ops != [] {
      if Apply(limits, h, ops[0]).Success? {
        ApplyKeepsBounds(limits, h, ops[0]);
      }
      RunKeepsBounds(limits, After(limits, h, ops[0]), ops[1..]);
    }
  }

  /**
   Every session stays within its limits, whether it was created or forked, and whatever calls it and
   its parent answered, although deleting, forking and squashing never look at the size.
   */
  lemma SessionsKeepBounds(limits: Limits, parent: seq<Op>, at: Option<nat>, child: seq<Op>)
    ensures var source := Run(limits, Initial<Contents>(map[]), parent);
            var fork := Forked(source, at);
            && Bounded(limits, source)
            && (fork.Success? ==> Bounded(limits, Run(limits, fork.value, child)))
  {
    var source := Run(limits, Initial<Contents>(map[]), parent);
    RunKeepsBounds(limits, Initial<Contents>(map[]), parent);
    var fork := Forked(source, at);
    if fork.Success? {
      RunKeepsBounds(limits, fork.value, child);
    }
  }
}
