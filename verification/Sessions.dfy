/**
 A session: the checkpoint history held as maps of shared blobs, with an interner and a lazily
 created on-disk mirror underneath.  Each method is tied to what `Store.Apply` does on plain maps.
 */
module Sessions {
  import opened Wrappers
  import opened History
  import opened Store
  import opened Effects
  import opened Blobs
  import opened Interning
  import opened Mirror

  type Answer = Result<Checkpoint<FileMap>>

  /** What the sandboxed command does to the workspace directory it is started in. */
  datatype CommandRun =
    | Completed(after: Disk, stdout: string, stderr: string, exitCode: Option<int>)
    | TimedOut(after: Disk)

  /** The directory a command was started in, and what the mirror believed about it. */
  datatype Start = Start(disk: Disk, synced: SyncedFiles)

  /** The call did what the plain store does, and failed as it does. */
  ghost predicate Answered(limits: Limits, before: History<Contents>, op: Op, after: History<Contents>, answer: Answer)
    requires before.Valid()
  {
    match Apply(limits, before, op)
    case Success(h) => after == h && answer.Success?
    case Failure(error) => after == before && answer == Failure(error)
  }

  /** The same for calls that return no checkpoint: the error, if any. */
  ghost predicate Edited(
    limits: Limits, before: History<Contents>, op: Op, after: History<Contents>, error: Option<Error>)
    requires before.Valid()
  {
    match Apply(limits, before, op)
    case Success(h) => after == h && error.None?
    case Failure(e) => after == before && error == Some(e)
  }

  function MergeOp(
    source: History<Contents>, at: Option<nat>, keys: Option<seq<string>>, description: Option<string>): Op
  {
    var i := if at.Some? then at.value else source.head;
    Merge(i, if i < |source.checkpoints| then Some(source.checkpoints[i].files) else None, keys, description)
  }

  lemma BlobsOfInitial(files: FileMap)
    ensures HistoryBlobs(Initial(files).checkpoints) == files.Values
  {
    assert forall key | key in files :: Initial(files).checkpoints[0].files[key] == files[key];
  }

  lemma SameFilesSameBlobs(a: seq<Checkpoint<FileMap>>, b: seq<Checkpoint<FileMap>>)
    requires |a| == |b| && forall i | 0 <= i < |a| :: a[i].files == b[i].files
    ensures HistoryBlobs(a) == HistoryBlobs(b)
  {
  }

  lemma PushedView(
    limits: Limits, h: History<FileMap>, files: FileMap, outcome: Outcome, tool: string, description: Option<string>)
    requires Bounded(limits, Plain(h)) && Fits(limits, BytesOf(files))
    requires PushedWithin(limits, Plain(h), BytesOf(files), outcome, tool, description).Success?
    ensures Bounded(limits, Plain(Pushed(h, files, outcome, tool, description)))
    ensures PushedWithin(limits, Plain(h), BytesOf(files), outcome, tool, description).value
         == Plain(Pushed(h, files, outcome, tool, description))
    ensures HistoryBlobs(Pushed(h, files, outcome, tool, description).checkpoints)
         <= HistoryBlobs(h.checkpoints) + files.Values
  {
    PlainPushed(h, files, outcome, tool, description);
    PushKeepsBounds(limits, Plain(h), BytesOf(files), outcome, tool, description);
    PushedBlobs(h, files, outcome, tool, description);
  }

  lemma SquashedView(limits: Limits, h: History<FileMap>, from: nat, to: nat, name: Option<string>)
    requires Bounded(limits, Plain(h)) && 1 <= from <= to < |h.checkpoints|
    ensures Bounded(limits, Plain(Squashed(h, from, to, name)))
    ensures Plain(Squashed(h, from, to, name)) == Squashed(Plain(h), from, to, name)
    ensures HistoryBlobs(Squashed(h, from, to, name).checkpoints) <= HistoryBlobs(h.checkpoints)
  {
    PlainSquashed(h, from, to, name);
    SquashedBlobs(h, from, to, name);
    SquashKeepsBounds(limits, Plain(h), from, to, name);
  }

  lemma DroppedView(limits: Limits, h: History<FileMap>, from: nat, to: nat)
    requires Bounded(limits, Plain(h)) && 1 <= from <= to < |h.checkpoints| && (h.head < from || to < h.head)
    ensures Bounded(limits, Plain(Dropped(h, from, to)))
    ensures Plain(Dropped(h, from, to)) == Dropped(Plain(h), from, to)
    ensures HistoryBlobs(Dropped(h, from, to).checkpoints) <= HistoryBlobs(h.checkpoints)
  {
    PlainDropped(h, from, to);
    DroppedBlobs(h, from, to);
    DropKeepsBounds(limits, Plain(h), from, to);
  }

  lemma ValuesAfterInsert(files: FileMap, key: string, blob: Blob)
    ensures files[key := blob].Values <= files.Values + {blob}
    ensures BytesOf(files[key := blob]) == BytesOf(files)[key := blob.bytes]
  {
  }

  lemma TextsBelow(few: set<Blob>, many: set<Blob>)
    requires few <= many
    ensures Texts(few) <= Texts(many)
  {
  }

  /** The checkpoint a session was forked from. */
  datatype CheckpointRef = CheckpointRef(sessionId: string, checkpointId: nat)

  datatype ChatTurn = ChatTurn(prompt: string, response: string)

  /** What a session carries beside its history: nothing in the history depends on it. */
  datatype Details = Details(
    name: Option<string>,
    parent: Option<CheckpointRef>,
    overlays: map<string, string>,
    chatLog: seq<ChatTurn>)

  const NO_DETAILS := Details(None, None, map[], [])

  // ----- what a deletion removes -----

  /**
   On success exactly the named files are gone; a missing file is reported exactly when some path is absent
   or named twice, and it is the first such path.
   */
  ghost predicate DeletedExactly(
    before: History<Contents>, paths: seq<string>, after: History<Contents>, answer: Answer)
    requires before.Valid() && after.Valid()
  {
    var files := before.Current().files;
    if forall i | 0 <= i < |paths| :: Removable(files, paths, i) then
      && !(answer.Failure? && answer.error.FileNotFound?)
      && (answer.Success? ==> after.Current().files == files - (set p | p in paths) && Grown(before, after))
    else exists i: nat :: FirstUnremovable(files, paths, i) && answer == Failure(FileNotFound(paths[i]))
  }

  lemma DeleteAnswered(
    limits: Limits, before: History<Contents>, paths: seq<string>, description: Option<string>,
    after: History<Contents>, answer: Answer)
    requires before.Valid() && after.Valid()
    requires match Removed(before.Current().files, paths)
             case Failure(error) => after == before && answer == Failure(error)
             case Success(left) =>
               var expected := PushedWithin(limits, before, left, NO_OUTCOME, "session_delete_files", description);
               if expected.Success? then answer.Success? && after == expected.value
               else answer == Failure(expected.error) && after == before
    ensures Answered(limits, before, Delete(paths, description), after, answer)
    ensures DeletedExactly(before, paths, after, answer)
  {
    DeleteEffect(limits, before, paths, description);
  }

  // ----- what a command records -----

  lemma BashAnswered(
    limits: Limits, before: History<Contents>, outcome: Outcome, collected: Contents, description: Option<string>,
    after: History<Contents>, answer: Answer)
    requires before.Valid() && after.Valid()
    requires var expected := PushedIfFits(limits, before, collected, outcome, "session_bash", description);
             if expected.Success? then answer.Success? && after == expected.value
             else answer == Failure(expected.error) && after == before
    ensures Answered(limits, before, Bash(outcome, collected, description), after, answer)
    ensures answer.Success? ==>
              && Grown(before, after)
              && Records(after.Current(), collected, outcome.stdout, outcome.stderr, outcome.command, outcome.exitCode,
                         "session_bash", description)
  {
    BashEffect(limits, before, outcome, collected, description);
  }

  // ----- what a merge takes over -----

  /** The files a merge takes over from its source. */
  function Chosen(source: FileMap, keys: Option<seq<string>>): FileMap {
    match keys
    case None => source
    case Some(ks) => map key | key in ks && key in source :: source[key]
  }

  /** Where both hold the same content, they hold it as one allocation. */
  ghost predicate Aligned(taken: set<Blob>, kept: set<Blob>) {
    forall a, b | a in taken && b in kept :: a.bytes == b.bytes ==> a == b
  }

  ghost predicate MergeIsShared(h: History<FileMap>, source: FileMap, keys: Option<seq<string>>)
    requires h.head < |h.checkpoints|
  {
    var kept, taken := HistoryBlobs(h.checkpoints[..h.head + 1]), Chosen(source, keys).Values;
    Shared(kept) && Shared(taken) && Aligned(taken, kept)
  }

  /**
   After a merge equal contents are one allocation exactly when they were among what is kept, and among
   what is taken over, and each content taken over that is already kept comes as the very same blob.
   */
  lemma MergeKeepsSharing(h: History<FileMap>, source: FileMap, keys: Option<seq<string>>, description: Option<string>)
    requires h.head < |h.checkpoints|
    ensures var merged := h.Current().files + Chosen(source, keys);
            Shared(HistoryBlobs(Pushed(h, merged, NO_OUTCOME, "session_merge", description).checkpoints))
            <==> MergeIsShared(h, source, keys)
  {
    var merged := h.Current().files + Chosen(source, keys);
    var kept, taken := HistoryBlobs(h.checkpoints[..h.head + 1]), Chosen(source, keys).Values;
    PushedBlobsExactly(h, merged, NO_OUTCOME, "session_merge", description);
    MergedValues(h, Chosen(source, keys));
    SharedUnion(kept, taken);
  }

  lemma MergedValues(h: History<FileMap>, chosen: FileMap)
    requires h.head < |h.checkpoints|
    ensures var kept := HistoryBlobs(h.checkpoints[..h.head + 1]);
            kept + (h.Current().files + chosen).Values == kept + chosen.Values
  {
    var files, kept := h.Current().files, HistoryBlobs(h.checkpoints[..h.head + 1]);
    assert h.checkpoints[..h.head + 1][h.head].files == files;
    assert files.Values <= kept;
    assert forall key | key in chosen :: (files + chosen)[key] == chosen[key];
  }

  lemma ChosenOneMore(files: FileMap, source: FileMap, keys: seq<string>, i: nat)
    requires i < |keys| && keys[i] in source
    ensures files + Chosen(source, Some(keys[..i + 1]))
         == (files + Chosen(source, Some(keys[..i])))[keys[i] := source[keys[i]]]
  {
    assert keys[..i + 1] == keys[..i] + [keys[i]];
  }

  lemma PickedNext(files: FileMap, source: FileMap, keys: seq<string>, i: nat)
    requires i < |keys| && keys[i] in source
    ensures Picked(BytesOf(files), BytesOf(source), keys[i..])
         == Picked(BytesOf(files[keys[i] := source[keys[i]]]), BytesOf(source), keys[i + 1..])
  {
    ValuesAfterInsert(files, keys[i], source[keys[i]]);
    assert keys[i..][1..] == keys[i + 1..];
  }

  lemma MergedBelow(h: History<FileMap>, source: FileMap, keys: Option<seq<string>>)
    requires h.head < |h.checkpoints|
    ensures (h.Current().files + Chosen(source, keys)).Values <= HistoryBlobs(h.checkpoints) + source.Values
  {
  }

  lemma MergeAnswered(
    limits: Limits, before: History<Contents>, sourceId: nat, source: Contents, keys: Option<seq<string>>,
    description: Option<string>, after: History<Contents>, answer: Answer)
    requires before.Valid()
    requires match Overlaid(before.Current().files, source, keys)
             case Failure(error) => after == before && answer == Failure(error)
             case Success(merged) =>
               var expected := PushedIfFits(limits, before, merged, NO_OUTCOME, "session_merge", description);
               if expected.Success? then answer.Success? && after == expected.value
               else answer == Failure(expected.error) && after == before
    ensures Answered(limits, before, Merge(sourceId, Some(source), keys, description), after, answer)
    ensures answer.Success? ==> after.Valid() && after.Current().files == before.Current().files + Brought(source, keys)
  {
    MergeEffect(limits, before, sourceId, Some(source), keys, description);
  }

  lemma SharedUnion(kept: set<Blob>, taken: set<Blob>)
    ensures Shared(kept + taken) <==> Shared(kept) && Shared(taken) && Aligned(taken, kept)
  {
  }

  class Session {
    const limits: Limits
    const interner: Interner
    var details: Details
    var checkpoints: seq<Checkpoint<FileMap>>
    var checkpointIdx: nat
    var workspace: Workspace?

    function Hist(): History<FileMap>
      reads this
    {
      History(checkpoints, checkpointIdx)
    }

    ghost function View(): History<Contents>
      reads this
    {
      Plain(Hist())
    }

    ghost predicate Valid()
      reads this
    {
      Bounded(limits, View())
    }

    /** The interner answers with the history's own blobs. */
    ghost predicate Interned()
      reads this, interner
    {
      Canonical(interner.hash, interner.table, HistoryBlobs(checkpoints))
    }

    /** The mirror, once created, knows what is on the disk. */
    ghost predicate Mirrored()
      reads this, workspace
    {
      workspace != null ==> workspace.Agrees()
    }

    constructor (limits: Limits, hash: Bytes -> int)
      ensures Valid() && Interned() && Mirrored()
      ensures this.limits == limits && fresh(interner) && interner.hash == hash && workspace == null
      ensures View() == Initial(map[]) && Hist() == Initial(map[]) && interner.table == map[]
      ensures details == NO_DETAILS
    {
      this.limits := limits;
      details := NO_DETAILS;
      interner := new Interner(hash);
      checkpoints := Initial<FileMap>(map[]).checkpoints;
      checkpointIdx := 0;
      workspace := null;
      new;
      assert View() == Initial(map[]);
    }

    /** Assembles a session from decoded parts; nothing is checked. */
    constructor FromParts(limits: Limits, checkpoints: seq<Checkpoint<FileMap>>, checkpointIdx: nat, interner: Interner,
                          details: Details)
      ensures this.limits == limits && this.interner == interner && workspace == null && this.details == details
      ensures Hist() == History(checkpoints, checkpointIdx)
    {
      this.limits, this.interner, this.details := limits, interner, details;
      this.checkpoints, this.checkpointIdx := checkpoints, checkpointIdx;
      workspace := null;
    }

    // ----- checks -----

    method CheckWorkspaceSize(files: FileMap) returns (fits: bool)
      ensures fits <==> Fits(limits, BytesOf(files))
    {
      if limits.maxWorkspaceMb.None? {
        return true;
      }
      var total, left := 0, files;
      while left != map[]
        invariant total + TotalBytes(BytesOf(left)) == TotalBytes(BytesOf(files))
        decreases |left|
      {
        var key :| key in left;
        TotalBytesWithout(BytesOf(left), key);
        assert BytesOf(left) - {key} == BytesOf(left - {key});
        total, left := total + |left[key].bytes|, left - {key};
      }
      return total <= limits.maxWorkspaceMb.value * BYTES_PER_MB;
    }

    method ValidateFilePaths(entries: seq<(string, Bytes)>) returns (invalid: Option<string>)
      ensures invalid == FirstInvalid(entries)
    {
      for i := 0 to |entries|
        invariant FirstInvalid(entries[i..]) == FirstInvalid(entries)
      {
        if !ValidKey(entries[i].0) {
          return Some(entries[i].0);
        }
      }
      return None;
    }

    // ----- pushing -----

    /** Forgets the table entries no checkpoint needs. */
    method RetainReachable()
      modifies interner
      ensures Canonical(interner.hash, old(interner.table), HistoryBlobs(checkpoints)) ==> Interned()
    {
      interner.Retain(checkpoints);
      if Canonical(interner.hash, old(interner.table), HistoryBlobs(checkpoints)) {
        RebuiltIsCanonical(interner.hash, old(interner.table), interner.table, HistoryBlobs(checkpoints));
      }
    }

    /** The raw transition; whether the limit refuses is read off before anything is discarded. */
    method Push(files: FileMap, outcome: Outcome, tool: string, description: Option<string>) returns (r: Answer)
      requires checkpointIdx < |checkpoints|
      modifies `checkpoints, `checkpointIdx, interner
      ensures if limits.maxCheckpoints.Some? && |old(checkpoints)| >= limits.maxCheckpoints.value then
                r == Failure(CheckpointLimitReached(limits.maxCheckpoints.value)) && Hist() == old(Hist())
              else
                && Hist() == Pushed(old(Hist()), files, outcome, tool, description)
                && r == Success(Hist().Current())
      ensures Canonical(interner.hash, old(interner.table), old(HistoryBlobs(checkpoints)) + files.Values)
              ==> Interned()
    {
      if limits.maxCheckpoints.Some? && |checkpoints| >= limits.maxCheckpoints.value {
        return Failure(CheckpointLimitReached(limits.maxCheckpoints.value));
      }
      ghost var before := Hist();
      var discarding := |checkpoints| > checkpointIdx + 1;
      if discarding {
        checkpoints := checkpoints[..checkpointIdx + 1];
      }
      var id := |checkpoints|;
      var pushed := Checkpoint(id, outcome.stdout, outcome.stderr, files, None, outcome.command, outcome.exitCode,
                               Some(tool), description, [Step(tool, OrEmpty(description))]);
      checkpoints := checkpoints + [pushed];
      checkpointIdx := id;
      assert Hist() == Pushed(before, files, outcome, tool, description);
      PushedBlobs(before, files, outcome, tool, description);
      if discarding {
        RetainReachable();
      }
      return Success(checkpoints[|checkpoints| - 1]);
    }

    method PushCheckpoint(files: FileMap, outcome: Outcome, tool: string, description: Option<string>)
      returns (r: Answer)
      requires Valid() && Fits(limits, BytesOf(files))
      modifies `checkpoints, `checkpointIdx, interner
      ensures Valid()
      ensures var expected := PushedWithin(limits, old(View()), BytesOf(files), outcome, tool, description);
              if expected.Success? then r.Success? && View() == expected.value
              else r == Failure(expected.error) && View() == old(View())
      ensures r.Success? ==> Hist() == Pushed(old(Hist()), files, outcome, tool, description)
      ensures r.Success? <==> !AtLimit(limits, old(View()))
      ensures r.Success? ==>
                && r.value == Hist().Current() && Grown(old(Hist()), Hist())
                && Records(Hist().Current(), files, outcome.stdout, outcome.stderr, outcome.command, outcome.exitCode,
                           tool, description)
      ensures Canonical(interner.hash, old(interner.table), old(HistoryBlobs(checkpoints)) + files.Values)
              ==> Interned()
    {
      ghost var before := Hist();
      r := Push(files, outcome, tool, description);
      if r.Success? {
        PushRecords(before, files, outcome, tool, description);
        PushedView(limits, before, files, outcome, tool, description);
      }
    }

    /** The size check followed by the push. */
    method PushChecked(files: FileMap, outcome: Outcome, tool: string, description: Option<string>) returns (r: Answer)
      requires Valid()
      modifies `checkpoints, `checkpointIdx, interner
      ensures Valid()
      ensures var expected := PushedIfFits(limits, old(View()), BytesOf(files), outcome, tool, description);
              if expected.Success? then r.Success? && View() == expected.value
              else r == Failure(expected.error) && View() == old(View())
      ensures r.Success? ==> Hist() == Pushed(old(Hist()), files, outcome, tool, description)
      ensures Canonical(interner.hash, old(interner.table), old(HistoryBlobs(checkpoints)) + files.Values)
              ==> Interned()
    {
      var fits := CheckWorkspaceSize(files);
      if !fits {
        return Failure(WorkspaceSizeExceeded);
      }
      r := PushCheckpoint(files, outcome, tool, description);
    }

    method WriteFiles(entries: seq<(string, Bytes)>, tool: string, description: Option<string>) returns (r: Answer)
      requires Valid()
      modifies `checkpoints, `checkpointIdx, interner
      ensures Valid()
      ensures Answered(limits, old(View()), Write(entries, tool, description), View(), r)
      ensures old(Interned())
              && CollisionFree(interner.hash, Texts(old(HistoryBlobs(checkpoints))) + WrittenTexts(entries))
              ==> Interned()
    {
      var invalid := ValidateFilePaths(entries);
      if invalid.Some? {
        return Failure(InvalidWorkspacePath(invalid.value));
      }
      var files := InternEntries(entries);
      r := PushChecked(files, NO_OUTCOME, tool, description);
    }

    /** The current files with the entries added, each content interned. */
    method InternEntries(entries: seq<(string, Bytes)>) returns (files: FileMap)
      requires Valid()
      modifies interner
      ensures BytesOf(files) == Inserted(View().Current().files, entries)
      ensures old(Interned()) && CollisionFree(interner.hash, Texts(HistoryBlobs(checkpoints)) + WrittenTexts(entries))
              ==> Canonical(interner.hash, interner.table, HistoryBlobs(checkpoints) + files.Values)
    {
      files := checkpoints[checkpointIdx].files;
      ghost var start, held := BytesOf(files), HistoryBlobs(checkpoints);
      ghost var texts := Texts(held) + WrittenTexts(entries);
      ghost var sound := Interned() && CollisionFree(interner.hash, texts);
      assert held + files.Values == held;
      for i := 0 to |entries|
        invariant Inserted(BytesOf(files), entries[i..]) == Inserted(start, entries)
        invariant Texts(held + files.Values) <= texts
        invariant sound ==> Canonical(interner.hash, interner.table, held + files.Values)
      {
        var (path, content) := entries[i];
        var rooted := HistoryBlobs(checkpoints) + files.Values;
        assert entries[i..][1..] == entries[i + 1..];
        ghost var known := Texts(rooted) + {content};
        assert content in WrittenTexts(entries);
        var blob := interner.InternBytes(content, rooted);
        if sound {
          CollisionFreeBelow(interner.hash, known, texts);
        }
        TextsPlus(rooted, blob);
        ValuesAfterInsert(files, path, blob);
        TextsBelow(held + files[path := blob].Values, rooted + {blob});
        files := files[path := blob];
      }
    }

    method DeleteFiles(paths: seq<string>, description: Option<string>) returns (r: Answer)
      requires Valid()
      modifies `checkpoints, `checkpointIdx, interner
      ensures Valid()
      ensures Answered(limits, old(View()), Delete(paths, description), View(), r)
      ensures DeletedExactly(old(View()), paths, View(), r)
      ensures old(Interned()) ==> Interned()
    {
      var files := checkpoints[checkpointIdx].files;
      ghost var before, start := View(), BytesOf(files);
      for i := 0 to |paths|
        invariant Removed(BytesOf(files), paths[i..]) == Removed(start, paths)
        invariant files.Values <= HistoryBlobs(checkpoints)
      {
        assert paths[i..][1..] == paths[i + 1..];
        if paths[i] !in files {
          r := Failure(FileNotFound(paths[i]));
          DeleteAnswered(limits, before, paths, description, View(), r);
          return;
        }
        assert BytesOf(files - {paths[i]}) == BytesOf(files) - {paths[i]};
        files := files - {paths[i]};
      }
      RemovedFits(limits, start, paths);
      assert HistoryBlobs(checkpoints) + files.Values == HistoryBlobs(checkpoints);
      r := PushCheckpoint(files, NO_OUTCOME, "session_delete_files", description);
      DeleteAnswered(limits, before, paths, description, View(), r);
    }

    // ----- commands -----

    method EnsureWorkspace() returns (mirror: Workspace)
      modifies this`workspace
      ensures workspace == mirror
      ensures if old(workspace) == null then fresh(mirror) && mirror.disk == map[] && mirror.synced == map[]
              else mirror == old(workspace)
    {
      if workspace == null {
        workspace := new Workspace();
      }
      mirror := workspace;
    }

    method RecordBashCheckpoint(command: string, files: FileMap, stdout: string, stderr: string, exitCode: Option<int>,
                                description: Option<string>) returns (r: Answer)
      requires Valid()
      modifies `checkpoints, `checkpointIdx, interner
      ensures Valid()
      ensures Answered(limits, old(View()),
                       Bash(Outcome(stdout, stderr, Some(command), exitCode), BytesOf(files), description),
                       View(), r)
      ensures r.Success? ==>
                && Grown(old(View()), View())
                && Records(View().Current(), BytesOf(files), stdout, stderr, Some(command), exitCode,
                           "session_bash", description)
      ensures old(Interned()) && CollisionFree(interner.hash, Texts(old(HistoryBlobs(checkpoints)) + files.Values))
              ==> Interned()
    {
      ghost var before := View();
      var interned := interner.InternFileMap(files, HistoryBlobs(checkpoints));
      r := PushChecked(interned, Outcome(stdout, stderr, Some(command), exitCode), "session_bash", description);
      BashAnswered(limits, before, Outcome(stdout, stderr, Some(command), exitCode), BytesOf(files), description,
                   View(), r);
    }

    /** What the mirror holds before a call: the recorded state, or nothing when it does not exist yet. */
    ghost function MirrorState(): Start
      reads this, workspace
    {
      if workspace == null then Start(map[], map[]) else Start(workspace.disk, workspace.synced)
    }

    /** Brings the mirror to the current files. */
    method StartCommand() returns (ok: bool, ghost start: Start)
      requires Valid()
      modifies this`workspace, workspace
      ensures workspace != null && (workspace == old(workspace) || fresh(workspace))
      ensures ok <==> CanStart(old(MirrorState()), Hist().Current().files)
      ensures start == MirrorState()
      ensures if ok then Started(old(MirrorState()), Hist().Current().files, start)
              else PartlyRemoved(old(MirrorState()).disk, old(MirrorState()).synced, Hist().Current().files,
                                 start.disk, start.synced)
      ensures Valid() && Hist() == old(Hist()) && View() == old(View()) && (old(Interned()) <==> Interned())
    {
      var mirror := EnsureWorkspace();
      ok := mirror.SyncTo(checkpoints[checkpointIdx].files);
      start := Start(mirror.disk, mirror.synced);
    }

    method RunCommand(run: Disk -> CommandRun) returns (outcome: CommandRun)
      requires Valid() && workspace != null
      modifies workspace`disk
      ensures outcome == run(old(workspace.disk)) && workspace.disk == outcome.after
      ensures Valid() && Hist() == old(Hist()) && View() == old(View()) && (old(Interned()) <==> Interned())
    {
      outcome := run(workspace.disk);
      workspace.disk := outcome.after;
    }

    /** Reads the directory back. */
    method CollectFiles() returns (collected: FileMap)
      requires workspace != null
      modifies workspace
      ensures workspace.disk == old(workspace.disk)
      ensures BytesOf(collected) == CollectedBytes(workspace.disk, old(workspace.synced))
      ensures Mirrored() <==> Trustworthy(workspace.disk, old(workspace.synced))
      ensures Texts(HistoryBlobs(checkpoints) + collected.Values)
           == Texts(HistoryBlobs(checkpoints)) + CollectedBytes(workspace.disk, old(workspace.synced)).Values
    {
      collected := workspace.CollectChanges();
      TextsOfFiles(collected, CollectedBytes(workspace.disk, old(workspace.synced)));
      TextsUnion(HistoryBlobs(checkpoints), collected.Values);
    }

    /** Reads the directory back and records the command. */
    method FinishCommand(command: string, outcome: CommandRun, description: Option<string>) returns (r: Answer)
      requires Valid() && workspace != null && outcome.Completed? && workspace.disk == outcome.after
      modifies `checkpoints, `checkpointIdx, interner, workspace
      ensures Valid() && workspace == old(workspace) && workspace.disk == old(workspace.disk)
      ensures Recorded(command, outcome, old(workspace.synced), description, limits, old(View()), View(), r)
      ensures r.Success? ==>
                RecordsRun(View(), CollectedBytes(outcome.after, old(workspace.synced)), command, outcome, description)
      ensures old(Interned())
              && CollisionFree(interner.hash,
                               Texts(old(HistoryBlobs(checkpoints)))
                               + CollectedBytes(outcome.after, old(workspace.synced)).Values)
              ==> Interned()
      ensures Mirrored() <==> Trustworthy(workspace.disk, old(workspace.synced))
    {
      var collected := CollectFiles();
      r := RecordBashCheckpoint(command, collected, outcome.stdout, outcome.stderr, outcome.exitCode, description);
    }

    /**
     `run` is what the command makes of the directory it finds, and `start` is that directory, if the
     command got so far.  A completed command is recorded with what was collected; any other leaves the
     history as it was.
     */
    method ExecuteBash(command: string, allowed: bool, run: Disk -> CommandRun, description: Option<string>)
      returns (r: Answer, ghost start: Option<Start>)
      requires Valid()
      modifies `checkpoints, `checkpointIdx, `workspace, interner, workspace
      ensures Valid() && (workspace == old(workspace) || fresh(workspace))
      ensures MirrorMoved(old(MirrorState()), old(Hist()).Current().files, allowed, run, start, MirrorState())
      ensures start.None? ==> r == Failure(if allowed then WorkspaceIo else CommandDenied) && Hist() == old(Hist())
      ensures start.Some? ==>
                Recorded(command, run(start.value.disk), start.value.synced, description,
                         limits, old(View()), View(), r)
      ensures start.Some? && run(start.value.disk).TimedOut? ==> Hist() == old(Hist())
      ensures r.Success? ==>
                && start.Some? && run(start.value.disk).Completed?
                && var outcome := run(start.value.disk);
                   RecordsRun(View(), CollectedBytes(outcome.after, start.value.synced), command, outcome, description)
      ensures old(Interned())
              && CollisionFree(interner.hash, Texts(old(HistoryBlobs(checkpoints))) + CollectedTexts(run, start))
              ==> Interned()
    {
      start := None;
      if !allowed {
        return Failure(CommandDenied), start;
      }
      var ok;
      ghost var found;
      ok, found := StartCommand();
      if !ok {
        return Failure(WorkspaceIo), start;
      }
      start := Some(found);
      var outcome := RunCommand(run);
      if outcome.TimedOut? {
        return Failure(Timeout), start;
      }
      r := FinishCommand(command, outcome, description);
    }

    // ----- history surgery -----

    method Rollback(target: nat) returns (r: Option<Error>)
      requires Valid()
      modifies `checkpointIdx
      ensures Valid() && checkpoints == old(checkpoints)
      ensures Edited(limits, old(View()), Store.Rollback(target), View(), r)
    {
      if target >= |checkpoints| {
        return Some(CheckpointNotFound(target));
      }
      ghost var before := View();
      checkpointIdx := target;
      assert View() == before.(head := target);
      return None;
    }

    method SetCheckpointLabel(target: nat, text: string) returns (r: Option<Error>)
      requires Valid()
      modifies `checkpoints
      ensures Valid()
      ensures Edited(limits, old(View()), Label(target, text), View(), r)
      ensures HistoryBlobs(checkpoints) == old(HistoryBlobs(checkpoints))
    {
      if target >= |checkpoints| {
        return Some(CheckpointNotFound(target));
      }
      ghost var before := Hist();
      var named := checkpoints[target].(name := if text == "" then None else Some(text));
      checkpoints := checkpoints[target := named];
      PlainEdited(before, target, text, Step("", ""));
      SameFilesSameBlobs(before.checkpoints, checkpoints);
      ApplyKeepsBounds(limits, Plain(before), Label(target, text));
      return None;
    }

    method RecordStep(at: Option<nat>, step: Step)
      requires Valid()
      modifies `checkpoints
      ensures Valid()
      ensures Edited(limits, old(View()), Record(at, step), View(), None)
      ensures HistoryBlobs(checkpoints) == old(HistoryBlobs(checkpoints))
    {
      ghost var before := Hist();
      var i := if at.Some? then at.value else checkpointIdx;
      if i < |checkpoints| {
        checkpoints := checkpoints[i := checkpoints[i].(steps := checkpoints[i].steps + [step])];
        PlainEdited(before, i, "", step);
        SameFilesSameBlobs(before.checkpoints, checkpoints);
      }
      ApplyKeepsBounds(limits, Plain(before), Record(at, step));
    }

    method Renumber()
      modifies this`checkpoints
      ensures checkpoints == Renumbered(old(checkpoints))
    {
      for i := 0 to |checkpoints|
        invariant |checkpoints| == |old(checkpoints)|
        invariant forall j | 0 <= j < i :: checkpoints[j] == old(checkpoints)[j].(id := j)
        invariant forall j | i <= j < |checkpoints| :: checkpoints[j] == old(checkpoints)[j]
      {
        checkpoints := checkpoints[i := checkpoints[i].(id := i)];
      }
    }

    method SquashCheckpoints(from: nat, to: nat, name: Option<string>) returns (r: Option<Error>)
      requires Valid()
      modifies `checkpoints, `checkpointIdx, interner
      ensures Valid()
      ensures Edited(limits, old(View()), Squash(from, to, name), View(), r)
      ensures old(Interned()) ==> Interned()
    {
      r := CheckedRange(from, to, |checkpoints|);
      if r.Some? {
        return;
      }
      ghost var before := Hist();
      SpliceSquashed(from, to, name);
      SquashedView(limits, before, from, to, name);
      RetainReachable();
    }

    /** Replaces the range by its combination, renumbers, and shifts the head. */
    method SpliceSquashed(from: nat, to: nat, name: Option<string>)
      requires 1 <= from <= to < |checkpoints|
      modifies `checkpoints, `checkpointIdx
      ensures Hist() == Squashed(old(Hist()), from, to, name)
    {
      var squashed := Combined(checkpoints[from..to + 1], from, name);
      checkpoints := checkpoints[..from] + [squashed] + checkpoints[to + 1..];
      Renumber();
      if from <= checkpointIdx <= to {
        checkpointIdx := from;
      } else if to < checkpointIdx {
        checkpointIdx := checkpointIdx - (to - from);
      }
    }

    method DropCheckpoints(from: nat, to: nat) returns (r: Option<Error>)
      requires Valid()
      modifies `checkpoints, `checkpointIdx, interner
      ensures Valid()
      ensures Edited(limits, old(View()), Drop(from, to), View(), r)
      ensures old(Interned()) ==> Interned()
    {
      r := CheckedRange(from, to, |checkpoints|);
      if r.Some? {
        return;
      }
      if from <= checkpointIdx <= to {
        return Some(DropsCurrentCheckpoint);
      }
      ghost var before := Hist();
      checkpoints := checkpoints[..from] + checkpoints[to + 1..];
      Renumber();
      if to < checkpointIdx {
        checkpointIdx := checkpointIdx - (to - from + 1);
      }
      assert Hist() == Dropped(before, from, to);
      DroppedView(limits, before, from, to);
      RetainReachable();
    }

    // ----- other sessions -----

    static method Overlay(files: FileMap, source: FileMap, keys: Option<seq<string>>) returns (r: Result<FileMap>)
      ensures match Overlaid(BytesOf(files), BytesOf(source), keys)
              case Success(plain) =>
                r.Success? && BytesOf(r.value) == plain && r.value == files + Chosen(source, keys)
              case Failure(error) => r == Failure(error)
    {
      match keys {
        case Some(ks) => r := OverlayKeys(files, source, ks);
        case None =>
          var merged := files;
          var left := source.Keys;
          while left != {}
            invariant left <= source.Keys && merged.Keys == files.Keys + (source.Keys - left)
            invariant forall key | key in merged ::
                merged[key] == if key in source && key !in left then source[key] else files[key]
          {
            var key :| key in left;
            merged := merged[key := source[key]];
            left := left - {key};
          }
          assert merged == files + source;
          assert BytesOf(merged) == BytesOf(files) + BytesOf(source);
          r := Success(merged);
      }
    }

    static method OverlayKeys(files: FileMap, source: FileMap, keys: seq<string>) returns (r: Result<FileMap>)
      ensures match Picked(BytesOf(files), BytesOf(source), keys)
              case Success(plain) =>
                r.Success? && BytesOf(r.value) == plain && r.value == files + Chosen(source, Some(keys))
              case Failure(error) => r == Failure(error)
    {
      var merged: FileMap := files;
      for i := 0 to |keys|
        invariant Picked(BytesOf(merged), BytesOf(source), keys[i..]) == Picked(BytesOf(files), BytesOf(source), keys)
        invariant merged == files + Chosen(source, Some(keys[..i]))
      {
        if keys[i] !in source {
          return Failure(FileNotFound(keys[i]));
        }
        PickedNext(merged, source, keys, i);
        ChosenOneMore(files, source, keys, i);
        merged := merged[keys[i] := source[keys[i]]];
      }
      assert keys[..|keys|] == keys;
      return Success(merged);
    }

    method PushMerged(
      merged: FileMap, ghost source: FileMap, ghost keys: Option<seq<string>>, description: Option<string>)
      returns (r: Answer)
      requires Valid() && merged == Hist().Current().files + Chosen(source, keys)
      modifies `checkpoints, `checkpointIdx, interner
      ensures Valid()
      ensures var before := old(View());
              var expected := PushedIfFits(limits, before, BytesOf(merged), NO_OUTCOME, "session_merge", description);
              if expected.Success? then r.Success? && View() == expected.value
              else r == Failure(expected.error) && View() == old(View())
      ensures Canonical(interner.hash, old(interner.table), old(HistoryBlobs(checkpoints)) + merged.Values)
              ==> Interned()
      ensures r.Success? ==> (Shared(HistoryBlobs(checkpoints)) <==> MergeIsShared(old(Hist()), source, keys))
    {
      ghost var before := Hist();
      r := PushChecked(merged, NO_OUTCOME, "session_merge", description);
      if r.Success? {
        MergeKeepsSharing(before, source, keys, description);
      }
    }

    /** The files merged in, already looked up. */
    method MergeFiles(sourceId: nat, source: FileMap, keys: Option<seq<string>>, description: Option<string>)
      returns (r: Answer)
      requires Valid()
      modifies `checkpoints, `checkpointIdx, interner
      ensures Valid()
      ensures Answered(limits, old(View()), Merge(sourceId, Some(BytesOf(source)), keys, description), View(), r)
      ensures Canonical(interner.hash, old(interner.table), old(HistoryBlobs(checkpoints)) + source.Values)
              ==> Interned()
      ensures r.Success? ==> (Shared(HistoryBlobs(checkpoints)) <==> MergeIsShared(old(Hist()), source, keys))
      ensures r.Success? ==>
                View().Current().files == old(View().Current().files) + Brought(BytesOf(source), keys)
    {
      ghost var before := View();
      var merged := Overlay(checkpoints[checkpointIdx].files, source, keys);
      assert BytesOf(checkpoints[checkpointIdx].files) == before.Current().files;
      if merged.Failure? {
        r := Failure(merged.error);
      } else {
        MergedBelow(Hist(), source, keys);
        r := PushMerged(merged.value, source, keys, description);
      }
      MergeAnswered(limits, before, sourceId, BytesOf(source), keys, description, View(), r);
    }

    /** Blobs are taken over from `source` as they are, without interning them. */
    method MergeFrom(source: Session, at: Option<nat>, keys: Option<seq<string>>, description: Option<string>)
      returns (r: Answer)
      requires Valid() && source.Valid() && source != this
      modifies `checkpoints, `checkpointIdx, interner
      ensures Valid()
      ensures Answered(limits, old(View()), MergeOp(source.View(), at, keys, description), View(), r)
      ensures Canonical(interner.hash, old(interner.table),
                        old(HistoryBlobs(checkpoints)) + HistoryBlobs(source.checkpoints))
              ==> Interned()
      ensures r.Success? ==>
                (Shared(HistoryBlobs(checkpoints)) <==> MergeIsShared(old(Hist()), source.FilesAt(at), keys))
      ensures var i := match at case Some(k) => k case None => source.checkpointIdx;
              if i >= |source.checkpoints| then r == Failure(CheckpointNotFound(i))
              else r.Success? ==>
                View().Current().files
                == old(View().Current().files) + Brought(BytesOf(source.checkpoints[i].files), keys)
    {
      var sourceId := if at.Some? then at.value else source.checkpointIdx;
      if sourceId >= |source.checkpoints| {
        return Failure(CheckpointNotFound(sourceId));
      }
      var files := source.checkpoints[sourceId].files;
      assert files.Values <= HistoryBlobs(source.checkpoints);
      r := MergeFiles(sourceId, files, keys, description);
    }

    /** The files of the checkpoint a merge names, if it exists. */
    ghost function FilesAt(at: Option<nat>): FileMap
      reads this
    {
      var i := if at.Some? then at.value else checkpointIdx;
      if i < |checkpoints| then checkpoints[i].files else map[]
    }

    /** Makes `files` the only checkpoint of a new session. */
    method Adopt(files: FileMap)
      requires Valid() && Hist() == Initial(map[]) && interner.table == map[] && Fits(limits, BytesOf(files))
      modifies `checkpoints, `checkpointIdx, interner
      ensures Valid()
      ensures Hist() == Initial(files) && View() == Initial(BytesOf(files))
      ensures Rebuilt(interner.hash, interner.table, files.Values)
    {
      interner.SeedAll(files, {});
      assert {} + files.Values == files.Values;
      checkpoints := [checkpoints[0].(files := files)];
      assert View() == Initial(BytesOf(files));
    }

    /** A new session on the files of one checkpoint of `source`, sharing its blobs. */
    static method FromSession(sourceId: string, source: Session, at: Option<nat>) returns (r: Result<Session>)
      requires source.Valid()
      ensures Forked(source.View(), at).Failure? ==> r == Failure(Forked(source.View(), at).error)
      ensures Forked(source.View(), at).Success? ==> r.Success?
      ensures r.Success? ==>
                && fresh(r.value) && fresh(r.value.interner)
                && r.value.limits == source.limits && r.value.interner.hash == source.interner.hash
                && r.value.Valid() && r.value.Mirrored()
                && r.value.View() == Forked(source.View(), at).value
                && r.value.Hist() == Forked(source.Hist(), at).value
                && (source.Interned() ==> r.value.Interned())
                && (var i := if at.Some? then at.value else source.checkpointIdx;
                    r.value.details == Details(None, Some(CheckpointRef(sourceId, i)), source.details.overlays, []))
    {
      var i := if at.Some? then at.value else source.checkpointIdx;
      if i >= |source.checkpoints| {
        return Failure(CheckpointNotFound(i));
      }
      var files := source.checkpoints[i].files;
      var session := new Session(source.limits, source.interner.hash);
      session.Adopt(files);
      session.details := session.details.(
        overlays := source.details.overlays, parent := Some(CheckpointRef(sourceId, i)));
      BlobsOfInitial(files);
      assert files.Values <= HistoryBlobs(source.checkpoints);
      if source.Interned() {
        RebuiltIsCanonical(session.interner.hash, source.interner.table, session.interner.table, files.Values);
      }
      return Success(session);
    }
  }

  /** No file the sync has to remove is missing from the disk. */
  ghost predicate CanStart(before: Start, files: FileMap) {
    before.synced.Keys - files.Keys <= before.disk.Keys
  }

  /** The directory after a sync to `files`: exactly those files if the mirror knew the disk before. */
  ghost predicate Started(before: Start, files: FileMap, start: Start) {
    && DiskBytes(start.disk) == SyncedBytes(before.disk, before.synced, files)
    && start.synced.Keys == files.Keys && (forall key | key in files :: start.synced[key].content == files[key])
    && (Agree(before.disk, before.synced) ==>
          Agree(start.disk, start.synced) && DiskBytes(start.disk) == BytesOf(files))
  }

  /** The contents a command leaves to be interned: what was collected, if it got so far. */
  ghost function CollectedTexts(run: Disk -> CommandRun, start: Option<Start>): set<Bytes> {
    if start.None? || run(start.value.disk).TimedOut? then {}
    else CollectedBytes(run(start.value.disk).after, start.value.synced).Values
  }

  /**
   What a command does to the mirror.  A refused one does nothing; one that cannot start leaves stale files
   partly removed; a timed-out one leaves the mirror with what it believed at the start; a completed one
   leaves it right exactly when no changed file was taken for an untouched one.
   */
  ghost predicate MirrorMoved(
    before: Start, files: FileMap, allowed: bool, run: Disk -> CommandRun, start: Option<Start>, after: Start)
  {
    if !allowed then start.None? && after == before
    else if !CanStart(before, files) then
      start.None? && PartlyRemoved(before.disk, before.synced, files, after.disk, after.synced)
    else
      && start.Some? && Started(before, files, start.value)
      && after.disk == run(start.value.disk).after
      && if run(start.value.disk).TimedOut? then after.synced == start.value.synced
         else Agree(after.disk, after.synced) <==> Trustworthy(after.disk, start.value.synced)
  }

  /** A completed command becomes a checkpoint of what was collected; a timed-out one changes no history. */
  ghost predicate Recorded(
    command: string, outcome: CommandRun, synced: SyncedFiles, description: Option<string>,
    limits: Limits, before: History<Contents>, after: History<Contents>, answer: Answer)
    requires before.Valid()
  {
    match outcome
    case TimedOut(_) => answer == Failure(Timeout) && after == before
    case Completed(disk, stdout, stderr, exitCode) =>
      Answered(limits, before, BashOp(command, outcome, CollectedBytes(disk, synced), description), after, answer)
  }

  /** The current checkpoint holds these files and what this run of the command put out. */
  ghost predicate RecordsRun(
    h: History<Contents>, collected: Contents, command: string, outcome: CommandRun, description: Option<string>)
    requires h.Valid() && outcome.Completed?
  {
    Records(h.Current(), collected, outcome.stdout, outcome.stderr, Some(command), outcome.exitCode,
            "session_bash", description)
  }

  function BashOp(command: string, outcome: CommandRun, collected: Contents, description: Option<string>): Op
    requires outcome.Completed?
  {
    Bash(Outcome(outcome.stdout, outcome.stderr, Some(command), outcome.exitCode), collected, description)
  }

  lemma TextsOfFiles(files: FileMap, plain: Contents)
    requires BytesOf(files) == plain
    ensures Texts(files.Values) == plain.Values
  {
    assert forall key | key in files :: plain[key] == files[key].bytes;
  }

  lemma TextsUnion(a: set<Blob>, b: set<Blob>)
    ensures Texts(a + b) == Texts(a) + Texts(b)
  {
  }

  function WrittenTexts(entries: seq<(string, Bytes)>): set<Bytes> {
    set i | 0 <= i < |entries| :: entries[i].1
  }
}
