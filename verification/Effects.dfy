/**
 What each operation does, said field by field: the functions that specify the store are compared here
 with what the program promises about their results, not with how they compute them.
 */
module Effects {
  import opened Wrappers
  import opened History
  import opened Store

  // ----- a new checkpoint -----

  /** One checkpoint more than up to the old head, the new head; nothing before it changed. */
  ghost predicate Grown<F>(before: History<F>, after: History<F>)
    requires before.head < |before.checkpoints|
  {
    && after.head == before.head + 1
    && |after.checkpoints| == before.head + 2
    && after.checkpoints[..before.head + 1] == before.checkpoints[..before.head + 1]
  }

  /** The checkpoint holds these files, and records this outcome of this call, as one step and without a label. */
  ghost predicate Records<F>(
    c: Checkpoint<F>, files: F, stdout: string, stderr: string, command: Option<string>, exitCode: Option<int>,
    tool: string, description: Option<string>)
  {
    && c.files == files
    && c.stdout == stdout && c.stderr == stderr
    && c.command == command && c.exitCode == exitCode
    && c.tool == Some(tool) && c.description == description
    && c.name == None
    && c.steps == [Step(tool, match description case Some(text) => text case None => "")]
  }

  lemma PushRecords<F>(h: History<F>, files: F, outcome: Outcome, tool: string, description: Option<string>)
    requires h.Valid()
    ensures var after := Pushed(h, files, outcome, tool, description);
            && Grown(h, after) && after.Valid()
            && Records(after.Current(), files, outcome.stdout, outcome.stderr, outcome.command, outcome.exitCode,
                       tool, description)
  {
  }

  // ----- squashing one and two checkpoints -----

  /** Two texts put together, with the separator only between texts that are there. */
  function Glued(a: string, separator: string, b: string): string {
    if a == "" then b else if b == "" then a else a + separator + b
  }

  /** Two recorded commands put together; an empty result is no command. */
  function GluedCommand(a: Option<string>, b: Option<string>): Option<string> {
    match (a, b)
    case (None, None) => None
    case (Some(x), None) => if x == "" then None else a
    case (None, Some(y)) => if y == "" then None else b
    case (Some(x), Some(y)) => Some(x + " && " + y)
  }

  ghost predicate MadeBySquash<F>(c: Checkpoint<F>, id: nat, name: Option<string>) {
    c.id == id && c.name == name && c.tool == Some("session_checkpoint_squash") && c.description == None
  }

  /** Squashing a single checkpoint keeps what it recorded, except an empty command. */
  lemma SquashOne<F>(h: History<F>, i: nat, name: Option<string>)
    requires 1 <= i < |h.checkpoints|
    ensures var s := Squashed(h, i, i, name).checkpoints;
            && |s| == |h.checkpoints|
            && var (was, c) := (h.checkpoints[i], s[i]);
               && MadeBySquash(c, i, name)
               && c.stdout == was.stdout && c.stderr == was.stderr
               && c.files == was.files && c.exitCode == was.exitCode && c.steps == was.steps
               && c.command == if was.command == Some("") then None else was.command
  {
    var was := h.checkpoints[i];
    SquashedAt(h, i, i, name);
    assert h.checkpoints[i..i + 1] == [was];
    CombinedOne(was, i, name);
  }

  lemma CombinedOne<F>(was: Checkpoint<F>, id: nat, name: Option<string>)
    ensures var c := Combined([was], id, name);
            && MadeBySquash(c, id, name)
            && c.stdout == was.stdout && c.stderr == was.stderr
            && c.files == was.files && c.exitCode == was.exitCode && c.steps == was.steps
            && c.command == if was.command == Some("") then None else was.command
  {
    assert Stdouts([was]) == [was.stdout] && Stderrs([was]) == [was.stderr];
    assert Commands([was]) == [was.command] && StepLists([was]) == [was.steps];
    NonEmptyOne(was.stdout);
    NonEmptyOne(was.stderr);
    PresentOne(was.command);
    assert Flattened([was.steps]) == was.steps;
  }

  lemma NonEmptyOne(text: string)
    ensures Joined(NonEmpty([text]), "\n") == text
  {
  }

  /** Squashing two checkpoints joins what they recorded, in order, and keeps the later one's files and exit code. */
  lemma SquashPair<F>(h: History<F>, i: nat, name: Option<string>)
    requires 1 <= i && i + 1 < |h.checkpoints|
    ensures var s := Squashed(h, i, i + 1, name).checkpoints;
            && |s| == |h.checkpoints| - 1
            && var (a, b, c) := (h.checkpoints[i], h.checkpoints[i + 1], s[i]);
               && MadeBySquash(c, i, name)
               && c.stdout == Glued(a.stdout, "\n", b.stdout)
               && c.stderr == Glued(a.stderr, "\n", b.stderr)
               && c.command == GluedCommand(a.command, b.command)
               && c.steps == a.steps + b.steps
               && c.files == b.files && c.exitCode == b.exitCode
  {
    var a, b := h.checkpoints[i], h.checkpoints[i + 1];
    SquashedAt(h, i, i + 1, name);
    assert h.checkpoints[i..i + 2] == [a, b];
    CombinedPair(a, b, i, name);
  }

  lemma CombinedPair<F>(a: Checkpoint<F>, b: Checkpoint<F>, id: nat, name: Option<string>)
    ensures var c := Combined([a, b], id, name);
            && MadeBySquash(c, id, name)
            && c.stdout == Glued(a.stdout, "\n", b.stdout)
            && c.stderr == Glued(a.stderr, "\n", b.stderr)
            && c.command == GluedCommand(a.command, b.command)
            && c.steps == a.steps + b.steps
            && c.files == b.files && c.exitCode == b.exitCode
  {
    assert Stdouts([a, b]) == [a.stdout, b.stdout] && Stderrs([a, b]) == [a.stderr, b.stderr];
    assert Commands([a, b]) == [a.command, b.command] && StepLists([a, b]) == [a.steps, b.steps];
    JoinedPair(a.stdout, b.stdout);
    JoinedPair(a.stderr, b.stderr);
    CommandPair(a.command, b.command);
    assert [a.steps, b.steps][1..] == [b.steps] && Flattened([b.steps]) == b.steps;
  }

  lemma JoinedPair(a: string, b: string)
    ensures Joined(NonEmpty([a, b]), "\n") == Glued(a, "\n", b)
  {
    assert [a, b][1..] == [b];
    NonEmptyOne(b);
    assert [a, b][1..][1..] == [];
  }

  lemma CommandPair(a: Option<string>, b: Option<string>)
    ensures JoinedCommand([a, b]) == GluedCommand(a, b)
  {
    assert [a, b] == [a] + [b];
    PresentAppend([a], [b]);
    PresentOne(a);
    PresentOne(b);
    if a.Some? && b.Some? {
      assert [a.value] + [b.value] == [a.value, b.value];
      assert [a.value, b.value][1..] == [b.value];
      assert |Joined([a.value, b.value], " && ")| >= 4;
    }
  }

  // ----- edits of a file map -----

  /** Of several entries for a path the last one is stored. */
  lemma {:induction false} InsertedIsLast<V>(files: map<string, V>, entries: seq<(string, V)>, i: nat)
    requires i < |entries| && forall j | i < j < |entries| :: entries[j].0 != entries[i].0
    ensures entries[i].0 in Inserted(files, entries) && Inserted(files, entries)[entries[i].0] == entries[i].1
    decreases |entries|
  {
    var first := files[entries[0].0 := entries[0].1];
    if i == 0 {
      InsertedKeepsOthers(first, entries[1..], entries[0].0);
    } else {
      InsertedIsLast(first, entries[1..], i - 1);
    }
  }

  /** A path no entry names is left alone. */
  lemma {:induction false} InsertedKeepsOthers<V>(files: map<string, V>, entries: seq<(string, V)>, path: string)
    requires forall i | 0 <= i < |entries| :: entries[i].0 != path
    ensures path in Inserted(files, entries) <==> path in files
    ensures path in files ==> Inserted(files, entries)[path] == files[path]
    decreases |entries|
  {
    if entries != [] {
      InsertedKeepsOthers(files[entries[0].0 := entries[0].1], entries[1..], path);
    }
  }

  /** The path is there to be removed when its turn comes: present, and not removed before. */
  predicate Removable<V>(files: map<string, V>, paths: seq<string>, i: nat)
    requires i < |paths|
  {
    paths[i] in files && paths[i] !in paths[..i]
  }

  ghost predicate FirstUnremovable<V>(files: map<string, V>, paths: seq<string>, i: nat) {
    i < |paths| && !Removable(files, paths, i) && forall j | 0 <= j < i :: Removable(files, paths, j)
  }

  /**
   Removing succeeds exactly when every path is present and named once, and then exactly those paths are
   gone; otherwise the error names the first that is not.
   */
  lemma {:induction false} RemovedExactly<V>(files: map<string, V>, paths: seq<string>)
    ensures match Removed(files, paths)
            case Success(left) =>
              (forall i | 0 <= i < |paths| :: Removable(files, paths, i)) && left == files - (set p | p in paths)
            case Failure(e) => exists i: nat :: FirstUnremovable(files, paths, i) && e == FileNotFound(paths[i])
  {
    if paths == [] {
      assert files - (set p | p in paths) == files;
    } else if paths[0] in files {
      RemovedExactly(files - {paths[0]}, paths[1..]);
      RemovableLater(files, paths);
      match Removed(files - {paths[0]}, paths[1..])
      case Success(left) =>
        assert (set p | p in paths) == {paths[0]} + set p | p in paths[1..];
      case Failure(e) =>
        var i: nat :| FirstUnremovable(files - {paths[0]}, paths[1..], i) && e == FileNotFound(paths[1..][i]);
        assert FirstUnremovable(files, paths, i + 1) && paths[i + 1] == paths[1..][i];
    } else {
      assert FirstUnremovable(files, paths, 0);
    }
  }

  lemma RemovableLater<V>(files: map<string, V>, paths: seq<string>)
    requires paths != [] && paths[0] in files
    ensures Removable(files, paths, 0)
    ensures forall j | 1 <= j < |paths| ::
              Removable(files, paths, j) <==> Removable(files - {paths[0]}, paths[1..], j - 1)
  {
    forall j | 1 <= j < |paths|
      ensures Removable(files, paths, j) <==> Removable(files - {paths[0]}, paths[1..], j - 1)
    {
      assert paths[..j] == [paths[0]] + paths[1..][..j - 1];
    }
  }

  /** Picking succeeds exactly when the source has every key; the first it lacks is named otherwise. */
  lemma {:induction false} PickedExactly<V>(files: map<string, V>, source: map<string, V>, keys: seq<string>)
    ensures match Picked(files, source, keys)
            case Success(merged) =>
              && (forall key | key in keys :: key in source)
              && merged == files + map key | key in keys && key in source :: source[key]
            case Failure(e) => exists i: nat :: FirstMissing(source, keys, i) && e == FileNotFound(keys[i])
    decreases |keys|
  {
    if keys == [] {
      assert files + (map key | key in keys && key in source :: source[key]) == files;
    } else if keys[0] in source {
      var first := files[keys[0] := source[keys[0]]];
      PickedExactly(first, source, keys[1..]);
      match Picked(first, source, keys[1..])
      case Success(merged) =>
        assert merged == files + map key | key in keys && key in source :: source[key];
      case Failure(e) =>
        var i: nat :| FirstMissing(source, keys[1..], i) && e == FileNotFound(keys[1..][i]);
        assert FirstMissing(source, keys, i + 1);
    } else {
      assert FirstMissing(source, keys, 0);
    }
  }

  ghost predicate FirstMissing<V>(source: map<string, V>, keys: seq<string>, i: nat) {
    i < |keys| && keys[i] !in source && forall j | 0 <= j < i :: keys[j] in source
  }

  // ----- keys -----

  /** The text `p`, free of slashes, stands between slashes or ends at position `i` of the path. */
  predicate PieceAt(path: string, i: nat, p: string) {
    && i + |p| <= |path| && path[i..i + |p|] == p && '/' !in p
    && (i == 0 || path[i - 1] == '/')
    && (i + |p| == |path| || path[i + |p|] == '/')
  }

  ghost predicate HasPiece(path: string, p: string) {
    exists i :: PieceAt(path, i, p)
  }

  ghost predicate HasLaterPiece(path: string, p: string) {
    exists i :: i >= 1 && PieceAt(path, i, p)
  }

  lemma {:induction false} ComponentsArePieces(path: string, p: string)
    ensures PieceAt(path, 0, Components(path)[0])
    ensures p in Components(path)[1..] <==> HasLaterPiece(path, p)
  {
    if path != "" {
      var rest, tail := Components(path[1..]), path[1..];
      ComponentsArePieces(tail, p);
      assert path == [path[0]] + tail;
      if path[0] == '/' {
        assert PieceAt(path, 0, "");
        assert Components(path)[1..] == rest;
        FirstPieceIsOnly(tail, rest[0], p);
        PiecesShift(path, p);
        assert p in rest <==> p == rest[0] || p in rest[1..];
      } else {
        FirstPieceGrows(path, rest[0]);
        assert Components(path)[1..] == rest[1..];
        LaterPiecesShift(path, p);
      }
    } else {
      assert PieceAt(path, 0, "");
    }
  }

  /** Only one piece starts at the start. */
  lemma FirstPieceIsOnly(path: string, first: string, p: string)
    requires PieceAt(path, 0, first)
    ensures PieceAt(path, 0, p) <==> p == first
  {
    if PieceAt(path, 0, p) {
      NotLonger(path, p, first);
      NotLonger(path, first, p);
      assert p == path[..|p|] && first == path[..|first|];
    }
  }

  lemma NotLonger(path: string, a: string, b: string)
    requires PieceAt(path, 0, a) && PieceAt(path, 0, b)
    ensures |a| <= |b|
  {
  }

  lemma FirstPieceGrows(path: string, first: string)
    requires path != "" && path[0] != '/' && PieceAt(path[1..], 0, first)
    ensures PieceAt(path, 0, [path[0]] + first)
  {
    assert path == [path[0]] + path[1..];
    assert path[..1 + |first|] == [path[0]] + path[1..][..|first|];
  }

  lemma PieceShifts(path: string, i: nat, p: string)
    requires path != "" && i >= 1
    ensures PieceAt(path, i, p) <==> PieceAt(path[1..], i - 1, p) && (i == 1 ==> path[0] == '/')
  {
    if i + |p| <= |path| {
      TailSlice(path, i, i + |p|);
    }
  }

  lemma TailSlice(path: string, a: nat, b: nat)
    requires 1 <= a <= b <= |path|
    ensures path[1..][a - 1..b - 1] == path[a..b]
  {
    var x, y := path[1..][a - 1..b - 1], path[a..b];
    assert |x| == |y| && forall k | 0 <= k < |x| :: x[k] == path[1..][a - 1 + k] == path[a + k] == y[k];
  }

  lemma PiecesShift(path: string, p: string)
    requires path != "" && path[0] == '/'
    ensures HasLaterPiece(path, p) <==> PieceAt(path[1..], 0, p) || HasLaterPiece(path[1..], p)
  {
    if HasLaterPiece(path, p) {
      var i :| i >= 1 && PieceAt(path, i, p);
      PieceShifts(path, i, p);
      assert i == 1 || HasLaterPiece(path[1..], p);
    }
    if PieceAt(path[1..], 0, p) {
      PieceShifts(path, 1, p);
    }
    if HasLaterPiece(path[1..], p) {
      var i :| i >= 1 && PieceAt(path[1..], i, p);
      PieceShifts(path, i + 1, p);
    }
  }

  lemma LaterPiecesShift(path: string, p: string)
    requires path != "" && path[0] != '/'
    ensures HasLaterPiece(path, p) <==> HasLaterPiece(path[1..], p)
  {
    if HasLaterPiece(path, p) {
      var i :| i >= 1 && PieceAt(path, i, p);
      PieceShifts(path, i, p);
      assert i - 1 >= 1 && PieceAt(path[1..], i - 1, p);
    }
    if HasLaterPiece(path[1..], p) {
      var i :| i >= 1 && PieceAt(path[1..], i, p);
      PieceShifts(path, i + 1, p);
    }
  }

  /** A key is accepted exactly when it is not empty, does not start with a slash, and has no piece `..`. */
  lemma ValidKeyExactly(key: string)
    ensures ValidKey(key) <==> key != "" && key[0] != '/' && !HasPiece(key, "..")
  {
    ComponentsArePieces(key, "..");
    var cs := Components(key);
    FirstPieceIsOnly(key, cs[0], "..");
    assert ".." in cs <==> ".." == cs[0] || ".." in cs[1..];
    if HasPiece(key, "..") {
      var i :| PieceAt(key, i, "..");
      assert i == 0 || HasLaterPiece(key, "..");
    }
  }

  ghost predicate FirstRefused<V>(entries: seq<(string, V)>, i: nat) {
    i < |entries| && !ValidKey(entries[i].0) && forall j | 0 <= j < i :: ValidKey(entries[j].0)
  }

  ghost predicate AllValid<V>(entries: seq<(string, V)>) {
    forall i | 0 <= i < |entries| :: ValidKey(entries[i].0)
  }

  lemma {:induction false} FirstInvalidIsFirst<V>(entries: seq<(string, V)>)
    ensures match FirstInvalid(entries)
            case None => AllValid(entries)
            case Some(key) => exists i: nat :: FirstRefused(entries, i) && key == entries[i].0
  {
    if entries != [] && ValidKey(entries[0].0) {
      FirstInvalidIsFirst(entries[1..]);
      match FirstInvalid(entries[1..])
      case None =>
        assert forall i | 1 <= i < |entries| :: entries[i] == entries[1..][i - 1];
      case Some(key) =>
        var i: nat :| FirstRefused(entries[1..], i) && key == entries[1..][i].0;
        forall j | 0 <= j < i + 1
          ensures ValidKey(entries[j].0)
        {
          assert j > 0 ==> entries[j] == entries[1..][j - 1];
        }
        assert FirstRefused(entries, i + 1);
    } else if entries != [] {
      assert FirstRefused(entries, 0);
    }
  }

  // ----- the operations of the store -----

  ghost predicate TooBig(limits: Limits, files: Contents) {
    limits.maxWorkspaceMb.Some? && TotalBytes(files) > limits.maxWorkspaceMb.value * 1024 * 1024
  }

  predicate AtLimit(limits: Limits, h: History<Contents>) {
    limits.maxCheckpoints.Some? && |h.checkpoints| >= limits.maxCheckpoints.value
  }

  /** A checkpoint with these files was added, or refused at one of the limits, size first. */
  ghost predicate AddedOrRefused(
    limits: Limits, h: History<Contents>, r: Outcomes, files: Contents, sized: bool,
    outcome: Outcome, tool: string, description: Option<string>)
    requires h.Valid()
  {
    if sized && TooBig(limits, files) then r == Failure(WorkspaceSizeExceeded)
    else if AtLimit(limits, h) then r == Failure(CheckpointLimitReached(limits.maxCheckpoints.value))
    else
      && r.Success? && r.value.Valid() && Grown(h, r.value)
      && Records(r.value.Current(), files, outcome.stdout, outcome.stderr, outcome.command, outcome.exitCode,
                 tool, description)
  }

  lemma WriteEffect(
    limits: Limits, h: History<Contents>, entries: seq<(string, Bytes)>, tool: string, description: Option<string>)
    requires h.Valid()
    ensures var r := Apply(limits, h, Write(entries, tool, description));
            if AllValid(entries) then
              AddedOrRefused(limits, h, r, Inserted(h.Current().files, entries), true,
                             Outcome("", "", None, None), tool, description)
            else exists i: nat :: FirstRefused(entries, i) && r == Failure(InvalidWorkspacePath(entries[i].0))
  {
    FirstInvalidIsFirst(entries);
    PushRecords(h, Inserted(h.Current().files, entries), NO_OUTCOME, tool, description);
  }

  lemma DeleteEffect(limits: Limits, h: History<Contents>, paths: seq<string>, description: Option<string>)
    requires h.Valid()
    ensures var r, files := Apply(limits, h, Delete(paths, description)), h.Current().files;
            if forall i | 0 <= i < |paths| :: Removable(files, paths, i) then
              AddedOrRefused(limits, h, r, files - (set p | p in paths), false,
                             Outcome("", "", None, None), "session_delete_files", description)
            else exists i: nat :: FirstUnremovable(files, paths, i) && r == Failure(FileNotFound(paths[i]))
  {
    var files := h.Current().files;
    RemovedExactly(files, paths);
    PushRecords(h, files - (set p | p in paths), NO_OUTCOME, "session_delete_files", description);
  }

  /** The files a merge brings in: all of the source's, or those named. */
  function Brought(source: Contents, keys: Option<seq<string>>): Contents {
    map key | key in source && (keys.None? || key in keys.value) :: source[key]
  }

  lemma MergeEffect(
    limits: Limits, h: History<Contents>, sourceId: nat, source: Option<Contents>, keys: Option<seq<string>>,
    description: Option<string>)
    requires h.Valid()
    ensures var r := Apply(limits, h, Merge(sourceId, source, keys, description));
            if source.None? then r == Failure(CheckpointNotFound(sourceId))
            else if keys.None? || forall key | key in keys.value :: key in source.value then
              AddedOrRefused(limits, h, r, h.Current().files + Brought(source.value, keys), true,
                             Outcome("", "", None, None), "session_merge", description)
            else exists i: nat :: FirstMissing(source.value, keys.value, i) && r == Failure(FileNotFound(keys.value[i]))
  {
    if source.Some? {
      var files := h.Current().files;
      BroughtIsOverlaid(files, source.value, keys);
      PushRecords(h, files + Brought(source.value, keys), NO_OUTCOME, "session_merge", description);
    }
  }

  lemma BroughtIsOverlaid(files: Contents, source: Contents, keys: Option<seq<string>>)
    ensures match Overlaid(files, source, keys)
            case Success(merged) =>
              && (keys.None? || forall key | key in keys.value :: key in source)
              && merged == files + Brought(source, keys)
            case Failure(e) =>
              keys.Some? && exists i: nat :: FirstMissing(source, keys.value, i) && e == FileNotFound(keys.value[i])
  {
    match keys
    case None => assert Brought(source, keys) == source;
    case Some(ks) =>
      PickedExactly(files, source, ks);
      assert Brought(source, keys) == map key | key in ks && key in source :: source[key];
  }

  lemma BashEffect(
    limits: Limits, h: History<Contents>, outcome: Outcome, collected: Contents, description: Option<string>)
    requires h.Valid()
    ensures AddedOrRefused(limits, h, Apply(limits, h, Bash(outcome, collected, description)), collected, true,
                           outcome, "session_bash", description)
  {
    PushRecords(h, collected, outcome, "session_bash", description);
  }

  lemma RollbackEffect(limits: Limits, h: History<Contents>, target: nat)
    requires h.Valid()
    ensures Apply(limits, h, Rollback(target))
         == if target < |h.checkpoints| then Success(History(h.checkpoints, target))
            else Failure(CheckpointNotFound(target))
  {
  }

  /** Squashing is refused exactly for ranges that start at the first checkpoint, run backwards or end too late. */
  lemma SquashEffect(limits: Limits, h: History<Contents>, from: nat, to: nat, name: Option<string>)
    requires h.Valid()
    ensures var r := Apply(limits, h, Squash(from, to, name));
            if from == 0 then r == Failure(RangeStartsAtZero)
            else if to < from then r == Failure(RangeReversed)
            else if |h.checkpoints| <= to then r == Failure(CheckpointNotFound(to))
            else r == Success(Squashed(h, from, to, name))
  {
  }

  /** Dropping is refused for the same ranges, and for those that hold the head. */
  lemma DropEffect(limits: Limits, h: History<Contents>, from: nat, to: nat)
    requires h.Valid()
    ensures var r := Apply(limits, h, Drop(from, to));
            if from == 0 then r == Failure(RangeStartsAtZero)
            else if to < from then r == Failure(RangeReversed)
            else if |h.checkpoints| <= to then r == Failure(CheckpointNotFound(to))
            else if from <= h.head && h.head <= to then r == Failure(DropsCurrentCheckpoint)
            else r == Success(Dropped(h, from, to))
  {
  }

  /** Only the label of the one checkpoint changes, and an empty text clears it. */
  lemma LabelEffect(limits: Limits, h: History<Contents>, target: nat, text: string)
    requires h.Valid()
    ensures var r := Apply(limits, h, Label(target, text));
            if target >= |h.checkpoints| then r == Failure(CheckpointNotFound(target))
            else
              && r.Success? && r.value.head == h.head && |r.value.checkpoints| == |h.checkpoints|
              && (forall i | 0 <= i < |h.checkpoints| && i != target :: r.value.checkpoints[i] == h.checkpoints[i])
              && r.value.checkpoints[target].name == (if text == "" then None else Some(text))
              && r.value.checkpoints[target] == h.checkpoints[target].(name := r.value.checkpoints[target].name)
  {
  }

  /** Only the step log of the one checkpoint changes, by a step at its end. */
  lemma RecordEffect(limits: Limits, h: History<Contents>, at: Option<nat>, step: Step)
    requires h.Valid()
    ensures var r := Apply(limits, h, Record(at, step));
            var target := match at case Some(i) => i case None => h.head;
            && r.Success? && r.value.head == h.head && |r.value.checkpoints| == |h.checkpoints|
            && (forall i | 0 <= i < |h.checkpoints| && i != target :: r.value.checkpoints[i] == h.checkpoints[i])
            && (target < |h.checkpoints| ==>
                  r.value.checkpoints[target] == h.checkpoints[target].(steps := h.checkpoints[target].steps + [step]))
  {
  }

  /** A fork is a session with one checkpoint that records nothing but the files of the chosen one. */
  lemma ForkEffect<F>(h: History<F>, at: Option<nat>)
    requires h.Valid()
    ensures var source := match at case Some(i) => i case None => h.head;
            match Forked(h, at)
            case Failure(e) => source >= |h.checkpoints| && e == CheckpointNotFound(source)
            case Success(fork) =>
              && source < |h.checkpoints| && fork.head == 0 && |fork.checkpoints| == 1
              && var c := fork.checkpoints[0];
                 && c.files == h.checkpoints[source].files && c.id == 0
                 && c.stdout == "" && c.stderr == "" && c.steps == []
                 && c.name.None? && c.command.None? && c.exitCode.None? && c.tool.None? && c.description.None?
  {
  }
}
