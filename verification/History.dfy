/**
 The checkpoint history: a non-empty vector of checkpoints and a head.

 Every operation is generic in `F`, the type of a checkpoint's file map, because none of them
 looks inside one.  `Session` runs them on maps of shared blobs, `Store` on plain maps of bytes.
 */
module History {
  import opened Wrappers

  datatype Step = Step(tool: string, description: string)

  datatype Checkpoint<+F> = Checkpoint(
    id: nat,
    stdout: string,
    stderr: string,
    files: F,
    name: Option<string>,
    command: Option<string>,
    exitCode: Option<int>,
    tool: Option<string>,
    description: Option<string>,
    steps: seq<Step>)

  /** What a command (or its absence) contributes to the checkpoint it produces. */
  datatype Outcome = Outcome(stdout: string, stderr: string, command: Option<string>, exitCode: Option<int>)

  const NO_OUTCOME := Outcome("", "", None, None)

  datatype History<+F> = History(checkpoints: seq<Checkpoint<F>>, head: nat) {

    /** Ids are indices and the head names a checkpoint. */
    ghost predicate Valid() {
      && head < |checkpoints|
      && forall i | 0 <= i < |checkpoints| :: checkpoints[i].id == i
    }

    function Current(): Checkpoint<F>
      requires head < |checkpoints|
    {
      checkpoints[head]
    }
  }

  function Initial<F>(files: F): History<F> {
    History([Checkpoint(0, "", "", files, None, None, None, None, None, [])], 0)
  }

  function OrEmpty(text: Option<string>): string {
    match text
    case Some(t) => t
    case None => ""
  }

  // ----- transitions -----

  /** A new head checkpoint; whatever lay beyond the old head is discarded. */
  function Pushed<F>(h: History<F>, files: F, outcome: Outcome, tool: string, description: Option<string>): History<F>
    requires h.head < |h.checkpoints|
  {
    var id := h.head + 1;
    var pushed := Checkpoint(
                    id, outcome.stdout, outcome.stderr, files, None, outcome.command, outcome.exitCode,
                    Some(tool), description, [Step(tool, OrEmpty(description))]);
    History(h.checkpoints[..id] + [pushed], id)
  }

  function Renumbered<F>(checkpoints: seq<Checkpoint<F>>): (r: seq<Checkpoint<F>>)
    ensures |r| == |checkpoints|
    ensures forall i | 0 <= i < |r| :: r[i].id == i && r[i] == checkpoints[i].(id := i)
  {
    seq(|checkpoints|, i requires 0 <= i < |checkpoints| => checkpoints[i].(id := i))
  }

  /** One checkpoint standing for the non-empty range `range`, with the id `id`. */
  function Combined<F>(range: seq<Checkpoint<F>>, id: nat, name: Option<string>): Checkpoint<F>
    requires range != []
  {
    var last := range[|range| - 1];
    Checkpoint(
      id,
      Joined(NonEmpty(Stdouts(range)), "\n"),
      Joined(NonEmpty(Stderrs(range)), "\n"),
      last.files,
      name,
      JoinedCommand(Commands(range)),
      last.exitCode,
      Some("session_checkpoint_squash"),
      None,
      Flattened(StepLists(range)))
  }

  /** Where the head is once `from..to` has become the single checkpoint `from`. */
  function ShiftedHead(head: nat, from: nat, to: nat): nat
    requires from <= to
  {
    if from <= head <= to then from else if to < head then head - (to - from) else head
  }

  function Squashed<F>(h: History<F>, from: nat, to: nat, name: Option<string>): History<F>
    requires 1 <= from <= to < |h.checkpoints|
  {
    var cs := h.checkpoints;
    History(
      Renumbered(cs[..from] + [Combined(cs[from..to + 1], from, name)] + cs[to + 1..]),
      ShiftedHead(h.head, from, to))
  }

  function Dropped<F>(h: History<F>, from: nat, to: nat): History<F>
    requires 1 <= from <= to < |h.checkpoints|
    requires h.head < from || to < h.head
  {
    var cs := h.checkpoints;
    History(
      Renumbered(cs[..from] + cs[to + 1..]),
      if to < h.head then h.head - (to - from + 1) else h.head)
  }

  function Labelled<F>(h: History<F>, i: nat, name: string): History<F>
    requires i < |h.checkpoints|
  {
    h.(checkpoints := h.checkpoints[i := h.checkpoints[i].(name := if name == "" then None else Some(name))])
  }

  /** Appends a step to checkpoint `i`; nothing happens when there is no such checkpoint. */
  function StepRecorded<F>(h: History<F>, i: nat, step: Step): History<F> {
    if i < |h.checkpoints| then
      h.(checkpoints := h.checkpoints[i := h.checkpoints[i].(steps := h.checkpoints[i].steps + [step])])
    else
      h
  }

  /** The first checkpoint carrying `label`. */
  function ByLabel<F>(checkpoints: seq<Checkpoint<F>>, name: string): (r: Option<nat>)
    ensures r.Some? ==>
              && r.value < |checkpoints|
              && checkpoints[r.value].name == Some(name)
              && forall i | 0 <= i < r.value :: checkpoints[i].name != Some(name)
    ensures r.None? ==> forall i | 0 <= i < |checkpoints| :: checkpoints[i].name != Some(name)
  {
    if checkpoints == [] then None
    else if checkpoints[0].name == Some(name) then Some(0)
    else
      match ByLabel(checkpoints[1..], name)
      case Some(i) =>
        assert forall j | 1 <= j < i + 1 :: checkpoints[j] == checkpoints[1..][j - 1];
        Some(i + 1)
      case None =>
        assert forall j | 1 <= j < |checkpoints| :: checkpoints[j] == checkpoints[1..][j - 1];
        None
  }

  // ----- text and step lists -----

  function Stdouts<F>(cs: seq<Checkpoint<F>>): seq<string> {
    seq(|cs|, i requires 0 <= i < |cs| => cs[i].stdout)
  }

  function Stderrs<F>(cs: seq<Checkpoint<F>>): seq<string> {
    seq(|cs|, i requires 0 <= i < |cs| => cs[i].stderr)
  }

  function Commands<F>(cs: seq<Checkpoint<F>>): seq<Option<string>> {
    seq(|cs|, i requires 0 <= i < |cs| => cs[i].command)
  }

  function StepLists<F>(cs: seq<Checkpoint<F>>): seq<seq<Step>> {
    seq(|cs|, i requires 0 <= i < |cs| => cs[i].steps)
  }

  function Joined(parts: seq<string>, separator: string): string {
    if parts == [] then ""
    else if |parts| == 1 then parts[0]
    else parts[0] + separator + Joined(parts[1..], separator)
  }

  function NonEmpty(parts: seq<string>): seq<string> {
    if parts == [] then []
    else (if parts[0] == "" then [] else [parts[0]]) + NonEmpty(parts[1..])
  }

  function Present(parts: seq<Option<string>>): seq<string> {
    if parts == [] then []
    else (if parts[0].None? then [] else [parts[0].value]) + Present(parts[1..])
  }

  function Flattened<T>(lists: seq<seq<T>>): seq<T> {
    if lists == [] then [] else lists[0] + Flattened(lists[1..])
  }

  function AsCommand(text: string): Option<string> {
    if text == "" then None else Some(text)
  }

  function JoinedCommand(parts: seq<Option<string>>): Option<string> {
    AsCommand(Joined(Present(parts), " && "))
  }

  lemma {:induction false} NonEmptyAppend(a: seq<string>, b: seq<string>)
    ensures NonEmpty(a + b) == NonEmpty(a) + NonEmpty(b)
  {
    if a == [] {
      assert a + b == b;
    } else {
      assert (a + b)[1..] == a[1..] + b;
      NonEmptyAppend(a[1..], b);
    }
  }

  lemma {:induction false} PresentAppend(a: seq<Option<string>>, b: seq<Option<string>>)
    ensures Present(a + b) == Present(a) + Present(b)
  {
    if a == [] {
      assert a + b == b;
    } else {
      assert (a + b)[1..] == a[1..] + b;
      PresentAppend(a[1..], b);
    }
  }

  lemma {:induction false} FlattenedAppend<T>(a: seq<seq<T>>, b: seq<seq<T>>)
    ensures Flattened(a + b) == Flattened(a) + Flattened(b)
  {
    if a == [] {
      assert a + b == b;
    } else {
      assert (a + b)[1..] == a[1..] + b;
      FlattenedAppend(a[1..], b);
    }
  }

  /** Joining a prefix first and then the rest is joining everything. */
  lemma {:induction false} JoinedNested(a: seq<string>, b: seq<string>, separator: string)
    requires a != []
    ensures Joined([Joined(a, separator)] + b, separator) == Joined(a + b, separator)
  {
    assert ([Joined(a, separator)] + b)[1..] == b;
    if |a| == 1 {
      assert [Joined(a, separator)] + b == a + b;
    } else {
      JoinedNested(a[1..], b, separator);
      assert (a + b)[1..] == a[1..] + b;
      assert ([Joined(a[1..], separator)] + b)[1..] == b;
      if b != [] {
        assert Joined([Joined(a, separator)] + b, separator)
            == a[0] + separator + (Joined(a[1..], separator) + separator + Joined(b, separator));
      }
    }
  }

  lemma {:induction false} NonEmptyHasNoEmpty(parts: seq<string>)
    ensures forall i | 0 <= i < |NonEmpty(parts)| :: NonEmpty(parts)[i] != ""
  {
    if parts != [] {
      NonEmptyHasNoEmpty(parts[1..]);
    }
  }

  // ----- squashing in two steps -----

  /** Streams: combining a prefix first never changes the combined stream. */
  lemma StreamsNested(a: seq<string>, b: seq<string>)
    ensures Joined(NonEmpty([Joined(NonEmpty(a), "\n")] + b), "\n") == Joined(NonEmpty(a + b), "\n")
  {
    var text := Joined(NonEmpty(a), "\n");
    NonEmptyAppend(a, b);
    NonEmptyAppend([text], b);
    NonEmptyHasNoEmpty(a);
    assert NonEmpty([text]) == if text == "" then [] else [text];
    if NonEmpty(a) == [] {
      assert NonEmpty(a) + NonEmpty(b) == NonEmpty(b);
      assert [] + NonEmpty(b) == NonEmpty(b);
    } else {
      JoinedNested(NonEmpty(a), NonEmpty(b), "\n");
    }
  }

  /** The only commands in `cs` are a single empty one. */
  ghost predicate OnlyAnEmptyCommand<F>(cs: seq<Checkpoint<F>>) {
    Present(Commands(cs)) == [""]
  }

  ghost predicate HasCommand<F>(cs: seq<Checkpoint<F>>) {
    Present(Commands(cs)) != []
  }

  lemma JoinedIsEmpty(parts: seq<string>, separator: string)
    requires separator != ""
    ensures Joined(parts, separator) == "" <==> parts == [] || parts == [""]
  {
    if |parts| > 1 {
      assert |Joined(parts, separator)| >= |separator|;
    }
  }

  /** Commands: combining a prefix first loses the prefix's separator exactly when it is one empty command. */
  lemma CommandsNested(a: seq<Option<string>>, b: seq<Option<string>>)
    ensures JoinedCommand([JoinedCommand(a)] + b) == JoinedCommand(a + b)
            <==> !(Present(a) == [""] && Present(b) != [])
  {
    var text := JoinedCommand(a);
    PresentAppend(a, b);
    PresentAppend([text], b);
    PresentOne(text);
    PresentNested(Present(a), Present(b));
    JoinedIsEmpty(Present(a), " && ");
    if text.None? {
      assert Present([text]) + Present(b) == Present(b);
    }
  }

  lemma PresentOne(part: Option<string>)
    ensures Present([part]) == if part.None? then [] else [part.value]
  {
  }

  lemma PresentNested(a: seq<string>, b: seq<string>)
    ensures var text := Joined(a, " && ");
            AsCommand(Joined(if text == "" then b else [text] + b, " && ")) == AsCommand(Joined(a + b, " && "))
            <==> !(a == [""] && b != [])
  {
    JoinedIsEmpty(a, " && ");
    JoinedIsEmpty(b, " && ");
    JoinedIsEmpty(a + b, " && ");
    if a == [] {
      assert a + b == b;
    } else if a == [""] {
      if b == [] {
        assert a + b == a;
      } else {
        assert (a + b)[1..] == b;
        assert |Joined(a + b, " && ")| > |Joined(b, " && ")|;
      }
    } else {
      JoinedNested(a, b, " && ");
    }
  }

  lemma CombinedNested<F>(
    a: seq<Checkpoint<F>>, b: seq<Checkpoint<F>>, id: nat, inner: Option<string>, name: Option<string>)
    requires a != []
    ensures Combined([Combined(a, id, inner)] + b, id, name) == Combined(a + b, id, name)
            <==> !(OnlyAnEmptyCommand(a) && HasCommand(b))
  {
    var first := Combined(a, id, inner);
    ListsAppend([first], b);
    ListsAppend(a, b);
    StreamsNested(Stdouts(a), Stdouts(b));
    StreamsNested(Stderrs(a), Stderrs(b));
    CommandsNested(Commands(a), Commands(b));
    StepsNested(StepLists(a), StepLists(b));
    assert ([first] + b)[|b|] == (a + b)[|a| + |b| - 1] || b == [];
  }

  lemma ListsAppend<F>(a: seq<Checkpoint<F>>, b: seq<Checkpoint<F>>)
    ensures Stdouts(a + b) == Stdouts(a) + Stdouts(b)
    ensures Stderrs(a + b) == Stderrs(a) + Stderrs(b)
    ensures Commands(a + b) == Commands(a) + Commands(b)
    ensures StepLists(a + b) == StepLists(a) + StepLists(b)
  {
  }

  lemma StepsNested(a: seq<seq<Step>>, b: seq<seq<Step>>)
    ensures Flattened([Flattened(a)] + b) == Flattened(a + b)
  {
    FlattenedAppend(a, b);
    assert ([Flattened(a)] + b)[1..] == b;
  }

  /**
   Squashing `from..mid` and then the result with `mid + 1..to` is squashing `from..to` once, with one
   exception: when the first range records exactly one command and it is empty, and the second range
   records any, the two-step command lacks the separator after the empty one.
   */
  lemma SquashInTwoSteps<F>(h: History<F>, from: nat, mid: nat, to: nat, inner: Option<string>, name: Option<string>)
    requires 1 <= from <= mid <= to < |h.checkpoints|
    ensures from + (to - mid) < |Squashed(h, from, mid, inner).checkpoints|
    ensures Squashed(Squashed(h, from, mid, inner), from, from + (to - mid), name) == Squashed(h, from, to, name)
            <==> !(OnlyAnEmptyCommand(h.checkpoints[from..mid + 1]) && HasCommand(h.checkpoints[mid + 1..to + 1]))
  {
    var a, b := h.checkpoints[from..mid + 1], h.checkpoints[mid + 1..to + 1];
    assert h.checkpoints[from..to + 1] == a + b;
    CombinedNested(a, b, from, inner, name);
    SquashedTwiceAt(h, from, mid, to, inner, name);
    SquashedAt(h, from, to, name);
    SquashedShrinks(h, from, mid, inner);
    SquashedOutside(h, Squashed(h, from, mid, inner), from, mid, to, name);
    var twice := Squashed(Squashed(h, from, mid, inner), from, from + (to - mid), name);
    SameHistory(twice, Squashed(h, from, to, name), from);
  }

  lemma SquashedTwiceAt<F>(h: History<F>, from: nat, mid: nat, to: nat, inner: Option<string>, name: Option<string>)
    requires 1 <= from <= mid <= to < |h.checkpoints|
    ensures from + (to - mid) < |Squashed(h, from, mid, inner).checkpoints|
    ensures var twice := Squashed(Squashed(h, from, mid, inner), from, from + (to - mid), name).checkpoints;
            && from < |twice|
            && twice[from]
               == Combined([Combined(h.checkpoints[from..mid + 1], from, inner)] + h.checkpoints[mid + 1..to + 1],
                           from, name)
  {
    var step1 := Squashed(h, from, mid, inner);
    SquashedAt(h, from, mid, inner);
    var end := from + (to - mid);
    SquashedRange(h, from, mid, to, inner);
    SameButIds(step1.checkpoints[from..end + 1],
               [Combined(h.checkpoints[from..mid + 1], from, inner)] + h.checkpoints[mid + 1..to + 1], from, name);
    SquashedAt(step1, from, end, name);
  }

  lemma SquashedAt<F>(h: History<F>, from: nat, to: nat, name: Option<string>)
    requires 1 <= from <= to < |h.checkpoints|
    ensures var s := Squashed(h, from, to, name).checkpoints;
            |s| == |h.checkpoints| - (to - from) && s[from] == Combined(h.checkpoints[from..to + 1], from, name)
  {
  }

  /** The two histories differ at most in the checkpoint at `from`. */
  ghost predicate SameOutside<F>(a: History<F>, b: History<F>, from: nat) {
    && a.head == b.head && |a.checkpoints| == |b.checkpoints|
    && forall p | 0 <= p < |a.checkpoints| && p != from :: a.checkpoints[p] == b.checkpoints[p]
  }

  lemma SameHistory<F>(a: History<F>, b: History<F>, from: nat)
    requires SameOutside(a, b, from) && from < |a.checkpoints|
    ensures a == b <==> a.checkpoints[from] == b.checkpoints[from]
  {
    if a.checkpoints[from] == b.checkpoints[from] {
      assert a.checkpoints == b.checkpoints;
    }
  }

  /** After the first step the second one finds the combined prefix followed by the rest of the range. */
  lemma SquashedRange<F>(h: History<F>, from: nat, mid: nat, to: nat, inner: Option<string>)
    requires 1 <= from <= mid <= to < |h.checkpoints|
    ensures var range := [Combined(h.checkpoints[from..mid + 1], from, inner)] + h.checkpoints[mid + 1..to + 1];
            var found := Squashed(h, from, mid, inner).checkpoints[from..from + (to - mid) + 1];
            && |found| == |range|
            && forall i | 0 <= i < |found| :: found[i] == range[i].(id := found[i].id)
  {
  }

  lemma SquashedOutside<F>(
    h: History<F>, step1: History<F>, from: nat, mid: nat, to: nat, name: Option<string>)
    requires 1 <= from <= mid <= to < |h.checkpoints| && from + (to - mid) < |step1.checkpoints|
    requires Shrunk(h, step1, from, mid)
    ensures SameOutside(Squashed(step1, from, from + (to - mid), name), Squashed(h, from, to, name), from)
  {
    SquashedShrinks(h, from, to, name);
    SquashedShrinks(step1, from, from + (to - mid), name);
    var twice, once := Squashed(step1, from, from + (to - mid), name), Squashed(h, from, to, name);
    ShrunkTwice(h, step1, twice, once, from, mid, to);
  }

  /** The checkpoint that is found at `p` once `from..to` has become one. */
  function Origin(p: nat, from: nat, to: nat): nat
    requires from <= to
  {
    if p < from then p else p + (to - from)
  }

  /** All but the checkpoint at `from` are old ones, renumbered, and the head follows. */
  ghost predicate Shrunk<F>(before: History<F>, after: History<F>, from: nat, to: nat)
    requires from <= to < |before.checkpoints|
  {
    && after.head == ShiftedHead(before.head, from, to)
    && |after.checkpoints| == |before.checkpoints| - (to - from)
    && forall p | 0 <= p < |after.checkpoints| && p != from ::
         after.checkpoints[p] == before.checkpoints[Origin(p, from, to)].(id := p)
  }

  lemma SquashedShrinks<F>(h: History<F>, from: nat, to: nat, name: Option<string>)
    requires 1 <= from <= to < |h.checkpoints|
    ensures Shrunk(h, Squashed(h, from, to, name), from, to)
  {
    forall p | 0 <= p < |h.checkpoints| - (to - from) && p != from
      ensures Squashed(h, from, to, name).checkpoints[p] == h.checkpoints[Origin(p, from, to)].(id := p)
    {
      SquashedElsewhere(h, from, to, name, p);
    }
  }

  lemma ShrunkTwice<F>(
    h: History<F>, step1: History<F>, twice: History<F>, once: History<F>, from: nat, mid: nat, to: nat)
    requires from <= mid <= to < |h.checkpoints| && Shrunk(h, step1, from, mid) && Shrunk(h, once, from, to)
    requires Shrunk(step1, twice, from, from + (to - mid))
    ensures SameOutside(twice, once, from)
  {
    forall p | 0 <= p < |once.checkpoints| && p != from
      ensures twice.checkpoints[p] == once.checkpoints[p]
    {
      var q := Origin(p, from, from + (to - mid));
      assert step1.checkpoints[q] == h.checkpoints[Origin(q, from, mid)].(id := q);
    }
  }

  /** Checkpoint `p` of a squashed history, other than the combined one, was there before. */
  lemma SquashedElsewhere<F>(h: History<F>, from: nat, to: nat, name: Option<string>, p: nat)
    requires 1 <= from <= to < |h.checkpoints| && p != from && p < |h.checkpoints| - (to - from)
    ensures var s := Squashed(h, from, to, name).checkpoints;
            p < |s| && s[p] == h.checkpoints[Origin(p, from, to)].(id := p)
  {
  }

  /** A combined checkpoint does not depend on the ids in its range. */
  lemma SameButIds<F>(a: seq<Checkpoint<F>>, b: seq<Checkpoint<F>>, id: nat, name: Option<string>)
    requires |a| == |b| > 0
    requires forall i | 0 <= i < |a| :: a[i] == b[i].(id := a[i].id)
    ensures Combined(a, id, name) == Combined(b, id, name)
  {
    assert Stdouts(a) == Stdouts(b);
    assert Stderrs(a) == Stderrs(b);
    assert Commands(a) == Commands(b);
    assert StepLists(a) == StepLists(b);
  }

  // ----- what squash and drop preserve -----

  /** Where checkpoint `p`, outside `from..to`, is found after the range shrank by `removed`. */
  function Survivor(p: nat, to: nat, removed: nat): nat
    requires to < p ==> removed <= p
  {
    if to < p then p - removed else p
  }

  /** Checkpoint `p` of `before` is checkpoint `q` of `after`, renumbered and otherwise untouched. */
  ghost predicate Moved<F>(before: seq<Checkpoint<F>>, p: nat, after: seq<Checkpoint<F>>, q: nat) {
    && p < |before| && q < |after|
    && after[q] == before[p].(id := q)
  }

  lemma SquashKeepsSurvivors<F>(h: History<F>, from: nat, to: nat, name: Option<string>)
    requires h.Valid() && 1 <= from <= to < |h.checkpoints|
    ensures var s := Squashed(h, from, to, name);
            && s.Valid()
            && |s.checkpoints| == |h.checkpoints| - (to - from)
            && (var removed := to - from;
                forall p | 0 <= p < |h.checkpoints| && !(from <= p <= to) ::
                  Moved(h.checkpoints, p, s.checkpoints, Survivor(p, to, removed)))
            && s.checkpoints[from].files == h.checkpoints[to].files
            && s.checkpoints[from].exitCode == h.checkpoints[to].exitCode
  {
    var cs, s := h.checkpoints, Squashed(h, from, to, name).checkpoints;
    var removed := to - from;
    var spliced := cs[..from] + [Combined(cs[from..to + 1], from, name)] + cs[to + 1..];
    assert s == Renumbered(spliced);
    forall p | 0 <= p < |cs| && !(from <= p <= to)
      ensures Moved(cs, p, s, Survivor(p, to, removed))
    {
      assert spliced[Survivor(p, to, removed)] == cs[p];
    }
    assert spliced[from].files == cs[to].files;
  }

  lemma DropKeepsSurvivors<F>(h: History<F>, from: nat, to: nat)
    requires h.Valid() && 1 <= from <= to < |h.checkpoints|
    requires h.head < from || to < h.head
    ensures var d := Dropped(h, from, to);
            && d.Valid()
            && |d.checkpoints| == |h.checkpoints| - (to - from + 1)
            && (var removed := to - from + 1;
                forall p | 0 <= p < |h.checkpoints| && !(from <= p <= to) ::
                  Moved(h.checkpoints, p, d.checkpoints, Survivor(p, to, removed)))
            && d.Current() == h.Current().(id := d.head)
  {
    var cs, d := h.checkpoints, Dropped(h, from, to).checkpoints;
    var removed := to - from + 1;
    var spliced := cs[..from] + cs[to + 1..];
    assert d == Renumbered(spliced);
    forall p | 0 <= p < |cs| && !(from <= p <= to)
      ensures Moved(cs, p, d, Survivor(p, to, removed))
    {
      assert spliced[Survivor(p, to, removed)] == cs[p];
    }
  }

  /** The current files survive a squash unless the head sits in the range strictly before its end. */
  lemma SquashKeepsCurrentFiles<F>(h: History<F>, from: nat, to: nat, name: Option<string>)
    requires h.Valid() && 1 <= from <= to < |h.checkpoints|
    ensures Squashed(h, from, to, name).Valid()
    ensures Squashed(h, from, to, name).Current().files
            == h.checkpoints[if from <= h.head < to then to else h.head].files
    ensures Squashed(h, from, to, name).Current().files == h.Current().files
            <==> (from <= h.head < to ==> h.checkpoints[to].files == h.Current().files)
  {
    SquashKeepsSurvivors(h, from, to, name);
  }

  /** Squash rearranges the step log into fewer checkpoints without losing or reordering a step. */
  lemma SquashKeepsStepLog<F>(h: History<F>, from: nat, to: nat, name: Option<string>)
    requires 1 <= from <= to < |h.checkpoints|
    ensures Flattened(StepLists(Squashed(h, from, to, name).checkpoints)) == Flattened(StepLists(h.checkpoints))
  {
    var cs, s := h.checkpoints, Squashed(h, from, to, name).checkpoints;
    var pre, mid, post := StepLists(cs[..from]), StepLists(cs[from..to + 1]), StepLists(cs[to + 1..]);
    assert StepLists(cs) == pre + (mid + post);
    assert StepLists(s) == pre + ([Flattened(mid)] + post);
    FlattenedAppend(pre, mid + post);
    FlattenedAppend(mid, post);
    FlattenedAppend(pre, [Flattened(mid)] + post);
    FlattenedAppend([Flattened(mid)], post);
    assert Flattened([Flattened(mid)]) == Flattened(mid);
  }

  ghost predicate UniqueLabel<F>(checkpoints: seq<Checkpoint<F>>, name: string, p: nat) {
    && p < |checkpoints|
    && forall i | 0 <= i < |checkpoints| :: checkpoints[i].name == Some(name) <==> i == p
  }

  /** A label carried by one survivor alone, and not given to the squashed checkpoint, still finds that survivor. */
  lemma SquashKeepsLabel<F>(h: History<F>, from: nat, to: nat, squashLabel: Option<string>, name: string, p: nat)
    requires h.Valid() && 1 <= from <= to < |h.checkpoints|
    requires UniqueLabel(h.checkpoints, name, p) && !(from <= p <= to) && squashLabel != Some(name)
    ensures var q := Survivor(p, to, to - from);
            var s := Squashed(h, from, to, squashLabel).checkpoints;
            && ByLabel(h.checkpoints, name) == Some(p)
            && ByLabel(s, name) == Some(q)
            && Moved(h.checkpoints, p, s, q)
  {
    SquashKeepsSurvivors(h, from, to, squashLabel);
    var s, q := Squashed(h, from, to, squashLabel).checkpoints, Survivor(p, to, to - from);
    assert s[q].name == Some(name);
    forall i | 0 <= i < |s| && i != q
      ensures s[i].name != Some(name)
    {
      var before := if i <= from then i else i + (to - from);
      if i != from {
        assert Survivor(before, to, to - from) == i;
        assert Moved(h.checkpoints, before, s, i);
      }
    }
  }

  lemma DropKeepsLabel<F>(h: History<F>, from: nat, to: nat, name: string, p: nat)
    requires h.Valid() && 1 <= from <= to < |h.checkpoints| && (h.head < from || to < h.head)
    requires UniqueLabel(h.checkpoints, name, p) && !(from <= p <= to)
    ensures var q := Survivor(p, to, to - from + 1);
            var d := Dropped(h, from, to).checkpoints;
            && ByLabel(d, name) == Some(q)
            && Moved(h.checkpoints, p, d, q)
  {
    DropKeepsSurvivors(h, from, to);
    var d, q := Dropped(h, from, to).checkpoints, Survivor(p, to, to - from + 1);
    assert d[q].name == Some(name);
    forall i | 0 <= i < |d| && i != q
      ensures d[i].name != Some(name)
    {
      var before := if i < from then i else i + (to - from + 1);
      assert Survivor(before, to, to - from + 1) == i;
      assert Moved(h.checkpoints, before, d, i);
    }
  }
}
