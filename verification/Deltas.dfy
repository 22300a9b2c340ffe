/** What changed between neighbouring checkpoints, and the summary of a history built from it. */
module Deltas {
  import opened Wrappers
  import opened History
  import opened Store
  import opened Blobs
  import opened Utf8

  datatype FileDelta = FileDelta(added: seq<string>, modified: seq<string>, removed: seq<string>)

  // ----- what the three lists should hold, by content alone -----

  function AddedKeys(previous: Contents, current: Contents): set<string> {
    current.Keys - previous.Keys
  }

  function RemovedKeys(previous: Contents, current: Contents): set<string> {
    previous.Keys - current.Keys
  }

  function ModifiedKeys(previous: Contents, current: Contents): set<string> {
    set key | key in current && key in previous && current[key] != previous[key]
  }

  /** The order of strings by their characters, which is also the order of their UTF-8 bytes. */
  predicate Before(a: string, b: string) {
    b != "" && (a == "" || a[0] < b[0] || (a[0] == b[0] && Before(a[1..], b[1..])))
  }

  /** The order of a dictionary: the smaller character at the first difference, and a prefix before what it begins. */
  lemma {:induction false} BeforeIsDictionary(a: string, b: string)
    ensures Before(a, b) <==> exists k: nat :: DiffersAt(a, b, k)
  {
    if Before(a, b) {
      if a == "" || a[0] < b[0] {
        assert DiffersAt(a, b, 0);
      } else {
        BeforeIsDictionary(a[1..], b[1..]);
        var k: nat :| DiffersAt(a[1..], b[1..], k);
        assert a[..k + 1] == [a[0]] + a[1..][..k] && b[..k + 1] == [b[0]] + b[1..][..k];
        assert DiffersAt(a, b, k + 1);
      }
    } else if exists k: nat :: DiffersAt(a, b, k) {
      var k: nat :| DiffersAt(a, b, k);
      if k > 0 {
        assert a[0] == a[..k][0] && b[0] == b[..k][0];
        assert a[1..][..k - 1] == a[..k][1..] && b[1..][..k - 1] == b[..k][1..];
        assert DiffersAt(a[1..], b[1..], k - 1);
        BeforeIsDictionary(a[1..], b[1..]);
      }
    }
  }

  predicate DiffersAt(a: string, b: string, k: nat) {
    k <= |a| && k < |b| && a[..k] == b[..k] && (k == |a| || a[k] < b[k])
  }

  ghost predicate Ordered(list: seq<string>) {
    forall i, j | 0 <= i < j < |list| :: Before(list[i], list[j])
  }

  /** `list` holds exactly `keys`, each once and in order. */
  ghost predicate ListsExactly(list: seq<string>, keys: set<string>) {
    Ordered(list) && forall key :: key in list <==> key in keys
  }

  ghost predicate NoRepeats(list: seq<string>) {
    forall i, j | 0 <= i < j < |list| :: list[i] != list[j]
  }

  lemma {:induction false} BeforeIsStrict(a: string, b: string)
    ensures Before(a, b) ==> a != b && !Before(b, a)
    ensures a == b || Before(a, b) || Before(b, a)
  {
    if a != "" && b != "" {
      BeforeIsStrict(a[1..], b[1..]);
      assert a == [a[0]] + a[1..] && b == [b[0]] + b[1..];
    }
  }

  lemma {:induction false} BeforeIsTransitive(a: string, b: string, c: string)
    requires Before(a, b) && Before(b, c)
    ensures Before(a, c)
  {
    if a != "" && a[0] == b[0] == c[0] {
      BeforeIsTransitive(a[1..], b[1..], c[1..]);
    }
  }

  lemma ListsSize(list: seq<string>, keys: set<string>)
    requires ListsExactly(list, keys)
    ensures |list| == |keys|
  {
    if list == [] {
      assert keys == {};
    } else {
      var last, rest := list[|list| - 1], list[..|list| - 1];
      forall key
        ensures key in rest <==> key in keys - {last}
      {
        assert key in list <==> key in rest || key == last;
        if key in rest {
          var i :| 0 <= i < |rest| && rest[i] == key;
          assert Before(list[i], last);
          BeforeIsStrict(list[i], last);
        }
      }
      ListsSize(rest, keys - {last});
      assert last in keys;
    }
  }

  /** There is only one such list, so the order in which a hash map is walked cannot show. */
  lemma {:induction false} ListIsUnique(a: seq<string>, b: seq<string>, keys: set<string>)
    requires ListsExactly(a, keys) && ListsExactly(b, keys)
    ensures a == b
  {
    ListsSize(a, keys);
    ListsSize(b, keys);
    if a != [] {
      var last := a[|a| - 1];
      SameLast(a, b, keys);
      ListsButLast(a, keys);
      ListsButLast(b, keys);
      ListIsUnique(a[..|a| - 1], b[..|b| - 1], keys - {last});
      assert a == a[..|a| - 1] + [last] && b == b[..|b| - 1] + [last];
    }
  }

  lemma SameLast(a: seq<string>, b: seq<string>, keys: set<string>)
    requires ListsExactly(a, keys) && ListsExactly(b, keys) && |a| == |b| > 0
    ensures a[|a| - 1] == b[|b| - 1]
  {
    var x, y := a[|a| - 1], b[|b| - 1];
    assert x in keys && y in keys;
    assert x in b && y in a;
    var i :| 0 <= i < |a| && a[i] == y;
    var j :| 0 <= j < |b| && b[j] == x;
    BeforeIsStrict(x, y);
    assert i < |a| - 1 ==> Before(y, x);
    assert j < |b| - 1 ==> Before(x, y);
  }

  lemma ListsButLast(list: seq<string>, keys: set<string>)
    requires ListsExactly(list, keys) && list != []
    ensures ListsExactly(list[..|list| - 1], keys - {list[|list| - 1]})
  {
    var last, rest := list[|list| - 1], list[..|list| - 1];
    forall key
      ensures key in rest <==> key in keys - {last}
    {
      assert key in list <==> key in rest || key == last;
      if key in rest {
        var i :| 0 <= i < |rest| && rest[i] == key;
        assert Before(list[i], last);
        BeforeIsStrict(list[i], last);
      }
    }
  }

  // ----- sorting -----

  method Sort(list: seq<string>) returns (sorted: seq<string>)
    requires NoRepeats(list)
    ensures Ordered(sorted) && forall key :: key in sorted <==> key in list
  {
    sorted := [];
    for i := 0 to |list|
      invariant Ordered(sorted)
      invariant forall key :: key in sorted <==> key in list[..i]
    {
      var at := 0;
      while at < |sorted| && Before(sorted[at], list[i])
        invariant at <= |sorted|
        invariant forall j | 0 <= j < at :: Before(sorted[j], list[i])
      {
        at := at + 1;
      }
      assert list[i] !in list[..i];
      PlacedInOrder(sorted, at, list[i]);
      assert list[..i + 1] == list[..i] + [list[i]];
      sorted := sorted[..at] + [list[i]] + sorted[at..];
    }
    assert list[..|list|] == list;
  }

  lemma PlacedInOrder(sorted: seq<string>, at: nat, key: string)
    requires Ordered(sorted) && at <= |sorted| && key !in sorted
    requires forall j | 0 <= j < at :: Before(sorted[j], key)
    requires at < |sorted| ==> !Before(sorted[at], key)
    ensures Ordered(sorted[..at] + [key] + sorted[at..])
    ensures forall k :: k in sorted[..at] + [key] + sorted[at..] <==> k in sorted || k == key
  {
    forall j | at <= j < |sorted|
      ensures Before(key, sorted[j])
    {
      BeforeIsStrict(key, sorted[at]);
      if at < j {
        BeforeIsTransitive(key, sorted[at], sorted[j]);
      }
    }
    assert sorted == sorted[..at] + sorted[at..];
  }

  // ----- computing the delta -----

  method Compute(previousFiles: Option<FileMap>, currentFiles: FileMap) returns (d: FileDelta)
    ensures previousFiles.None? ==> d == FileDelta([], [], [])
    ensures previousFiles.Some? ==>
              var previous, current := BytesOf(previousFiles.value), BytesOf(currentFiles);
              && ListsExactly(d.added, AddedKeys(previous, current))
              && ListsExactly(d.modified, ModifiedKeys(previous, current))
              && ListsExactly(d.removed, RemovedKeys(previous, current))
  {
    if previousFiles.None? {
      return FileDelta([], [], []);
    }
    var previous := previousFiles.value;
    var added, modified := AddedAndModified(previous, currentFiles);
    var removed: seq<string> := [];
    var keys := previous.Keys;
    while keys != {}
      invariant keys <= previous.Keys
      invariant NoRepeats(removed)
      invariant forall key :: key in removed <==> key in previous.Keys - keys && key !in currentFiles
    {
      var key :| key in keys;
      if key !in currentFiles {
        removed := removed + [key];
      }
      keys := keys - {key};
    }
    added := Sort(added);
    modified := Sort(modified);
    removed := Sort(removed);
    d := FileDelta(added, modified, removed);
  }

  method AddedAndModified(previous: FileMap, current: FileMap) returns (added: seq<string>, modified: seq<string>)
    ensures NoRepeats(added) && forall key :: key in added <==> key in AddedKeys(BytesOf(previous), BytesOf(current))
    ensures NoRepeats(modified)
    ensures forall key :: key in modified <==> key in ModifiedKeys(BytesOf(previous), BytesOf(current))
  {
    added, modified := [], [];
    var keys := current.Keys;
    while keys != {}
      invariant keys <= current.Keys
      invariant NoRepeats(added) && NoRepeats(modified)
      invariant forall key :: key in added <==> key in current.Keys - keys && key !in previous
      invariant forall key :: key in modified <==>
                  key in current.Keys - keys && key in previous && current[key].bytes != previous[key].bytes
    {
      var key :| key in keys;
      if key !in previous {
        added := added + [key];
      } else if current[key] != previous[key] && current[key].bytes != previous[key].bytes {
        modified := modified + [key];
      }
      keys := keys - {key};
    }
  }

  // ----- what a delta tells -----

  /** The older files with the removed keys dropped, and the added and modified ones taken from the newer. */
  function Patched(previous: Contents, current: Contents): Contents {
    var changed := AddedKeys(previous, current) + ModifiedKeys(previous, current);
    (previous - RemovedKeys(previous, current)) + (map key | key in current && key in changed :: current[key])
  }

  /** A delta names every key needed to turn the older files into the newer ones. */
  lemma DeltaIsEnough(previous: Contents, current: Contents)
    ensures Patched(previous, current) == current
  {
    var patched := Patched(previous, current);
    assert patched.Keys == current.Keys;
    forall key | key in current
      ensures patched[key] == current[key]
    {
    }
  }

  function Lookup(files: Contents, key: string): Option<Bytes> {
    if key in files then Some(files[key]) else None
  }

  /** And it names nothing more: each added, modified or removed key does differ. */
  lemma DeltaIsMinimal(previous: Contents, current: Contents, key: string)
    ensures key in AddedKeys(previous, current) + ModifiedKeys(previous, current) + RemovedKeys(previous, current)
            <==> Lookup(previous, key) != Lookup(current, key)
  {
  }

  lemma CountsBalance(previous: Contents, current: Contents)
    ensures |current| + |RemovedKeys(previous, current)| == |previous| + |AddedKeys(previous, current)|
  {
    SizesBalance(previous.Keys, current.Keys);
    assert |previous| == |previous.Keys| && |current| == |current.Keys|;
  }

  lemma SizesBalance(a: set<string>, b: set<string>)
    ensures |b| + |a - b| == |a| + |b - a|
  {
    assert a == a * b + (a - b) && |a| == |a * b| + |a - b|;
    assert b == a * b + (b - a) && |b| == |a * b| + |b - a|;
  }

  // ----- the summary of a history -----

  datatype CheckpointSummary = CheckpointSummary(
    checkpointId: nat,
    name: Option<string>,
    command: Option<string>,
    exitCode: Option<int>,
    tool: Option<string>,
    description: Option<string>,
    steps: seq<Step>,
    stdoutBytes: nat,
    stderrBytes: nat,
    fileCount: nat,
    filesAdded: nat,
    filesModified: nat,
    filesRemoved: nat)

  function PreviousFiles(checkpoints: seq<Checkpoint<Contents>>, i: nat): Contents
    requires i < |checkpoints|
  {
    checkpoints[if i == 0 then 0 else i - 1].files
  }

  ghost predicate Summarises(s: CheckpointSummary, checkpoints: seq<Checkpoint<Contents>>, i: nat)
    requires i < |checkpoints|
  {
    var c, previous := checkpoints[i], PreviousFiles(checkpoints, i);
    && s.checkpointId == c.id && s.name == c.name && s.command == c.command && s.exitCode == c.exitCode
    && s.tool == c.tool && s.description == c.description && s.steps == c.steps
    && s.stdoutBytes == ByteLength(c.stdout) && s.stderrBytes == ByteLength(c.stderr)
    && s.fileCount == |c.files|
    && s.filesAdded == |AddedKeys(previous, c.files)|
    && s.filesModified == |ModifiedKeys(previous, c.files)|
    && s.filesRemoved == |RemovedKeys(previous, c.files)|
  }

  /** One summary a checkpoint, each against the checkpoint before it. */
  method Summaries(h: History<FileMap>) returns (summaries: seq<CheckpointSummary>)
    ensures |summaries| == |h.checkpoints|
    ensures forall i | 0 <= i < |summaries| :: Summarises(summaries[i], Plain(h).checkpoints, i)
  {
    summaries := [];
    for i := 0 to |h.checkpoints|
      invariant |summaries| == i
      invariant forall j | 0 <= j < i :: Summarises(summaries[j], Plain(h).checkpoints, j)
    {
      var summary := Summary(h, i);
      summaries := summaries + [summary];
    }
  }

  method Summary(h: History<FileMap>, i: nat) returns (summary: CheckpointSummary)
    requires i < |h.checkpoints|
    ensures Summarises(summary, Plain(h).checkpoints, i)
  {
    var c := h.checkpoints[i];
    var d := Compute(if i > 0 then Some(h.checkpoints[i - 1].files) else None, c.files);
    ghost var previous, current := PreviousFiles(Plain(h).checkpoints, i), Plain(h).checkpoints[i].files;
    if i == 0 {
      assert previous == current;
      assert AddedKeys(current, current) == ModifiedKeys(current, current) == RemovedKeys(current, current) == {};
    } else {
      ListsSize(d.added, AddedKeys(previous, current));
      ListsSize(d.modified, ModifiedKeys(previous, current));
      ListsSize(d.removed, RemovedKeys(previous, current));
    }
    assert c.files.Keys == BytesOf(c.files).Keys;
    summary := CheckpointSummary(
      c.id, c.name, c.command, c.exitCode, c.tool, c.description, c.steps,
      ByteLength(c.stdout), ByteLength(c.stderr), |c.files|, |d.added|, |d.modified|, |d.removed|);
  }

  function SumAdded(summaries: seq<CheckpointSummary>): nat {
    if summaries == [] then 0 else SumAdded(summaries[..|summaries| - 1]) + summaries[|summaries| - 1].filesAdded
  }

  function SumRemoved(summaries: seq<CheckpointSummary>): nat {
    if summaries == [] then 0 else SumRemoved(summaries[..|summaries| - 1]) + summaries[|summaries| - 1].filesRemoved
  }

  /** Each summary's counts lead from the file count before it to its own. */
  ghost predicate Balanced(summaries: seq<CheckpointSummary>, i: nat)
    requires i < |summaries|
  {
    var s := summaries[i];
    s.fileCount + s.filesRemoved == summaries[if i == 0 then 0 else i - 1].fileCount + s.filesAdded
  }

  lemma SummariesBalance(checkpoints: seq<Checkpoint<Contents>>, summaries: seq<CheckpointSummary>, i: nat)
    requires i < |summaries| == |checkpoints|
    requires Summarises(summaries[i], checkpoints, i)
    requires i > 0 ==> Summarises(summaries[i - 1], checkpoints, i - 1)
    ensures Balanced(summaries, i)
  {
    CountsBalance(PreviousFiles(checkpoints, i), checkpoints[i].files);
  }

  lemma {:induction false} BalancesAddUp(summaries: seq<CheckpointSummary>, i: nat)
    requires i < |summaries|
    requires forall j | 0 <= j < |summaries| :: Balanced(summaries, j)
    ensures summaries[i].fileCount + SumRemoved(summaries[..i + 1])
         == summaries[0].fileCount + SumAdded(summaries[..i + 1])
  {
    var upTo := summaries[..i + 1];
    assert upTo[..|upTo| - 1] == summaries[..i];
    assert Balanced(summaries, i);
    if i > 0 {
      BalancesAddUp(summaries, i - 1);
    }
  }

  /** The counts telescope: files now are the files at first, plus all that were added, less all that were removed. */
  lemma CountsTelescope(checkpoints: seq<Checkpoint<Contents>>, summaries: seq<CheckpointSummary>, i: nat)
    requires i < |summaries| == |checkpoints|
    requires forall j | 0 <= j < |summaries| :: Summarises(summaries[j], checkpoints, j)
    ensures |checkpoints[i].files| + SumRemoved(summaries[..i + 1])
         == |checkpoints[0].files| + SumAdded(summaries[..i + 1])
  {
    forall j | 0 <= j < |summaries|
      ensures Balanced(summaries, j)
    {
      SummariesBalance(checkpoints, summaries, j);
    }
    BalancesAddUp(summaries, i);
    assert Summarises(summaries[0], checkpoints, 0) && Summarises(summaries[i], checkpoints, i);
  }
}
