/** Disabling toolsets in the Hermes configuration, and enabling them again. */
module HermesToolsets {
  import opened HermesText

  const AGENT := "agent:"
  const KEY := "  disabled_toolsets:"
  const BULLET := "    - "

  predicate IsAgent(line: Line) {
    TrimEnd(line) == AGENT
  }

  predicate IsKey(line: Line) {
    TrimEnd(line) == KEY
  }

  predicate EndsBlock(line: Line) {
    !IsBlank(line) && !StartsWith(line, "  ")
  }

  predicate EndsList(line: Line) {
    !StartsWith(line, BULLET) && !IsBlank(line)
  }

  function ItemName(line: Line): string {
    TrimStartMatches(TrimStart(line), "- ")
  }

  /** Where the list of disabled toolsets is, as far as the file has one. */
  datatype Place = NoAgent | NoKey(agent: nat) | List(key: nat, end: nat)

  /** The lines the editor writes, and what its block finders look for. */
  datatype Marks = Marks(
    agent: Line, key: Line, bullet: string,
    isAgent: Line -> bool, endsBlock: Line -> bool, isKey: Line -> bool, endsList: Line -> bool, nameOf: Line -> string)

  const HERMES := Marks(AGENT, KEY, BULLET, IsAgent, EndsBlock, IsKey, EndsList, ItemName)

  function Item(m: Marks, name: string): Line {
    m.bullet + name
  }

  function Items(m: Marks, names: seq<string>): seq<Line> {
    seq(|names|, i requires 0 <= i < |names| => Item(m, names[i]))
  }

  /** The first agent block, the key inside it, and the lines below the key that look like its list. */
  function Find(m: Marks, lines: seq<Line>): (r: Place)
    ensures Within(r, lines)
  {
    var start := First(lines, 0, m.isAgent);
    if start == |lines| then NoAgent
    else
      var end := First(lines, start + 1, m.endsBlock);
      var key := First(lines[..end], start + 1, m.isKey);
      if key == end then NoKey(start) else List(key, First(lines, key + 1, m.endsList))
  }

  predicate Lists(m: Marks, list: seq<Line>, name: string) {
    exists i :: 0 <= i < |list| && m.nameOf(list[i]) == name
  }

  function Missing(m: Marks, list: seq<Line>, names: seq<string>): seq<string> {
    Filter(names, name => !Lists(m, list, name))
  }

  function Spliced(lines: seq<Line>, at: nat, more: seq<Line>): seq<Line>
    requires at <= |lines|
  {
    lines[..at] + more + lines[at..]
  }

  function Gap(lines: seq<Line>): seq<Line> {
    if lines == [] then [] else [""]
  }

  /** `place` lies within the lines. */
  predicate Within(place: Place, lines: seq<Line>) {
    match place
    case NoAgent => true
    case NoKey(agent) => agent < |lines|
    case List(key, end) => key < end <= |lines|
  }

  function MergedAt(m: Marks, lines: seq<Line>, place: Place, names: seq<string>): seq<Line>
    requires Within(place, lines)
  {
    match place
    case NoAgent => lines + Gap(lines) + [m.agent] + NewList(m, names)
    case NoKey(agent) => Spliced(lines, agent + 1, NewList(m, names))
    case List(key, end) => Spliced(lines, end, Items(m, Missing(m, lines[key + 1..end], names)))
  }

  function Merged(m: Marks, lines: seq<Line>, names: seq<string>): seq<Line> {
    MergedAt(m, lines, Find(m, lines), names)
  }

  /** Whether merging changes anything. */
  predicate Adds(m: Marks, lines: seq<Line>, names: seq<string>) {
    match Find(m, lines)
    case NoAgent => true
    case NoKey(_) => true
    case List(key, end) => Missing(m, lines[key + 1..end], names) != []
  }

  function Remaining(m: Marks, list: seq<Line>, names: seq<string>): seq<Line> {
    Filter(list, line => m.nameOf(line) !in names)
  }

  function Cleared(m: Marks, lines: seq<Line>, names: seq<string>): seq<Line> {
    match Find(m, lines)
    case NoAgent => lines
    case NoKey(_) => lines
    case List(key, end) =>
      var remaining := Remaining(m, lines[key + 1..end], names);
      if |remaining| == end - (key + 1) then lines
      else lines[..key] + (if remaining == [] then [] else [lines[key]] + remaining) + lines[end..]
  }

  /** The lines the editor looks for may be followed by spaces, and by nothing else. */
  lemma MarkedLines(line: Line)
    ensures HERMES.isAgent(line) <==> 6 <= |line| && line[..6] == "agent:" && AllSpace(line[6..])
    ensures HERMES.isKey(line) <==> 20 <= |line| && line[..20] == "  disabled_toolsets:" && AllSpace(line[20..])
  {
    TrimEndExactly(line, AGENT);
    TrimEndExactly(line, KEY);
  }

  /** Which lines with text are not items, and which end the block: both skip lines of white space only. */
  lemma EndingLines(line: Line)
    ensures HERMES.endsList(line) <==> !(6 <= |line| && line[..6] == "    - ") && !AllSpace(line)
    ensures HERMES.endsBlock(line) <==> !(2 <= |line| && line[..2] == "  ") && !AllSpace(line)
  {
    BlankIsAllSpace(line);
  }

  // ----- items -----

  /** A name that reads back from its list item. */
  predicate IsPlain(name: string) {
    !StartsWith(name, "- ")
  }

  lemma ItemIsListed(name: string)
    ensures !EndsBlock(Item(HERMES, name)) && !EndsList(Item(HERMES, name))
  {
    var line := Item(HERMES, name);
    assert line[..6] == "    - " && line[..2] == "  ";
  }

  lemma ItemReadsBack(name: string)
    requires IsPlain(name)
    ensures ItemName(Item(HERMES, name)) == name
  {
    var line, text := Item(HERMES, name), "- " + name;
    assert line[1..][1..] == line[2..] && line[2..][1..] == line[3..] && line[3..][1..] == line[4..];
    assert TrimStart(line) == TrimStart(line[1..]) == TrimStart(line[2..]);
    assert TrimStart(line[2..]) == TrimStart(line[3..]) == TrimStart(line[4..]);
    assert line[4..] == text;
    assert TrimStart(text) == text;
    assert text[..2] == "- " && text[2..] == name;
    assert TrimStartMatches(text, "- ") == TrimStartMatches(name, "- ");
  }

  lemma KeyIsKey()
    ensures IsKey(KEY) && !EndsBlock(KEY) && EndsList(KEY)
  {
    assert KEY[..2] == "  ";
    assert KEY[2] == 'd' && KEY[|KEY| - 1] == ':';
    assert TrimEnd(KEY) == KEY;
    assert TrimStart(KEY) == TrimStart(KEY[1..]) == TrimStart(KEY[1..][1..]) == KEY[1..][1..];
  }

  lemma AgentIsAgent()
    ensures IsAgent(AGENT) && !IsAgent("")
  {
    assert TrimEnd("") == "";
  }

  /** Whatever continues the list continues the block. */
  ghost predicate ListsStayInBlocks(m: Marks) {
    forall line :: m.endsBlock(line) ==> m.endsList(line)
  }

  lemma HermesListsStayInBlocks()
    ensures ListsStayInBlocks(HERMES)
  {
    forall line | !EndsList(line)
      ensures !EndsBlock(line)
    {
      if StartsWith(line, "    - ") {
        assert line[..2] == line[..6][..2];
      }
    }
  }

  /** What the proofs need of the marks: they recognise the lines the editor writes. */
  ghost predicate Suits(m: Marks) {
    && m.isAgent(m.agent) && !m.isAgent("")
    && m.isKey(m.key) && !m.endsBlock(m.key) && m.endsList(m.key)
    && ListsStayInBlocks(m)
    && forall name :: ReadsItem(m, name)
  }

  ghost predicate ReadsItem(m: Marks, name: string) {
    && !m.endsBlock(Item(m, name)) && !m.endsList(Item(m, name))
    && (IsPlain(name) ==> m.nameOf(Item(m, name)) == name)
  }

  lemma HermesSuits()
    ensures Suits(HERMES)
  {
    AgentIsAgent();
    KeyIsKey();
    HermesListsStayInBlocks();
    forall name
      ensures ReadsItem(HERMES, name)
    {
      ItemIsListed(name);
      if IsPlain(name) {
        ItemReadsBack(name);
      }
    }
  }

  // ----- where things are after merging -----

  /** A new key with its items. */
  function NewList(m: Marks, names: seq<string>): (r: seq<Line>)
    ensures |r| == 1 + |names| && r[0] == m.key
    ensures forall i | 0 <= i < |names| :: r[i + 1] == Item(m, names[i])
  {
    [m.key] + Items(m, names)
  }

  /** A key and items as the block finders expect them. */
  ghost predicate IsList(m: Marks, list: seq<Line>) {
    && list != [] && m.isKey(list[0]) && !m.endsBlock(list[0]) && AreItems(m, list[1..])
  }

  ghost predicate AreItems(m: Marks, items: seq<Line>) {
    forall i | 0 <= i < |items| :: !m.endsBlock(items[i]) && !m.endsList(items[i])
  }

  lemma ItemsAreItems(m: Marks, names: seq<string>)
    requires Suits(m)
    ensures AreItems(m, Items(m, names))
  {
    forall i | 0 <= i < |names|
      ensures !m.endsBlock(Items(m, names)[i]) && !m.endsList(Items(m, names)[i])
    {
      assert ReadsItem(m, names[i]);
    }
  }

  lemma NewListIsList(m: Marks, names: seq<string>)
    requires Suits(m)
    ensures IsList(m, NewList(m, names)) && NewList(m, names)[1..] == Items(m, names)
  {
    ItemsAreItems(m, names);
    assert NewList(m, names)[1..] == Items(m, names);
  }

  lemma FindIs(m: Marks, lines: seq<Line>, start: nat, end: nat, key: nat, listEnd: nat)
    requires start < key < end <= |lines| && key < listEnd
    requires FirstAt(lines, 0, m.isAgent, start) && FirstAt(lines, start + 1, m.endsBlock, end)
    requires FirstAt(lines, start + 1, m.isKey, key) && FirstAt(lines, key + 1, m.endsList, listEnd)
    ensures Find(m, lines) == List(key, listEnd)
  {
    FirstIs(lines, 0, m.isAgent, start);
    FirstIs(lines, start + 1, m.endsBlock, end);
    FirstInPrefix(lines, end, start + 1, m.isKey, key);
    FirstIs(lines, key + 1, m.endsList, listEnd);
  }

  /** Inserting lines that do not satisfy `p`, at or before the first that does, only moves it. */
  lemma FirstMoves(lines: seq<Line>, from: nat, p: Line -> bool, k: nat, at: nat, more: seq<Line>)
    requires FirstAt(lines, from, p, k) && from <= at <= k
    requires forall i | 0 <= i < |more| :: !p(more[i])
    ensures FirstAt(Spliced(lines, at, more), from, p, k + |more|)
  {
    var longer := Spliced(lines, at, more);
    forall i | from <= i < k + |more|
      ensures !p(longer[i])
    {
      if i < at {
        assert longer[i] == lines[i];
      } else if i < at + |more| {
        assert longer[i] == more[i - at];
      } else {
        assert longer[i] == lines[i - |more|];
      }
    }
    assert k < |lines| ==> longer[k + |more|] == lines[k];
  }

  /** Inserting lines after the first that satisfies `p` leaves it where it is. */
  lemma FirstStays(lines: seq<Line>, from: nat, p: Line -> bool, k: nat, at: nat, more: seq<Line>)
    requires FirstAt(lines, from, p, k) && k < at <= |lines|
    ensures FirstAt(Spliced(lines, at, more), from, p, k)
  {
    var longer := Spliced(lines, at, more);
    assert forall i | 0 <= i < at :: longer[i] == lines[i];
  }

  /** The facts about a list that was found. */
  lemma Found(m: Marks, lines: seq<Line>, key: nat, listEnd: nat) returns (start: nat, end: nat)
    requires Find(m, lines) == List(key, listEnd) && ListsStayInBlocks(m)
    ensures start < key < listEnd <= end <= |lines|
    ensures FirstAt(lines, 0, m.isAgent, start) && FirstAt(lines, start + 1, m.endsBlock, end)
    ensures FirstAt(lines, start + 1, m.isKey, key) && FirstAt(lines, key + 1, m.endsList, listEnd)
  {
    start := First(lines, 0, m.isAgent);
    end := First(lines, start + 1, m.endsBlock);
    ListEndsWithin(m, lines, start, key, listEnd, end);
  }

  lemma ListEndsWithin(m: Marks, lines: seq<Line>, start: nat, key: nat, listEnd: nat, end: nat)
    requires ListsStayInBlocks(m) && start < key < end
    requires FirstAt(lines, start + 1, m.endsBlock, end) && FirstAt(lines, key + 1, m.endsList, listEnd)
    ensures listEnd <= end
  {
  }

  /** Adding items at the end of a list that was found lengthens that list. */
  lemma FindAfterAppending(m: Marks, lines: seq<Line>, key: nat, listEnd: nat, items: seq<Line>)
    requires Find(m, lines) == List(key, listEnd) && ListsStayInBlocks(m) && AreItems(m, items)
    ensures Find(m, Spliced(lines, listEnd, items)) == List(key, listEnd + |items|)
  {
    var start, end := Found(m, lines, key, listEnd);
    FirstStays(lines, 0, m.isAgent, start, listEnd, items);
    FirstMoves(lines, start + 1, m.endsBlock, end, listEnd, items);
    FirstStays(lines, start + 1, m.isKey, key, listEnd, items);
    FirstMoves(lines, key + 1, m.endsList, listEnd, listEnd, items);
    FindIs(m, Spliced(lines, listEnd, items), start, end + |items|, key, listEnd + |items|);
  }

  /** Without a key, the new one is found right below the agent line, with whatever follows that looks like a list. */
  lemma FindAfterNewKey(m: Marks, lines: seq<Line>, agent: nat, list: seq<Line>)
    requires Find(m, lines) == NoKey(agent) && IsList(m, list)
    ensures Find(m, Spliced(lines, agent + 1, list))
         == List(agent + 1, First(lines, agent + 1, m.endsList) + |list|)
  {
    var longer, end := Spliced(lines, agent + 1, list), First(lines, agent + 1, m.endsBlock);
    NewKeyIsFirst(m, lines, agent, list, end);
    NewListEnds(m, lines, agent, list, First(lines, agent + 1, m.endsList));
    FindIs(m, longer, agent, end + |list|, agent + 1, First(lines, agent + 1, m.endsList) + |list|);
  }

  lemma NewKeyIsFirst(m: Marks, lines: seq<Line>, agent: nat, list: seq<Line>, end: nat)
    requires FirstAt(lines, 0, m.isAgent, agent) && agent < |lines| && IsList(m, list)
    requires FirstAt(lines, agent + 1, m.endsBlock, end)
    ensures var longer := Spliced(lines, agent + 1, list);
            && FirstAt(longer, 0, m.isAgent, agent)
            && FirstAt(longer, agent + 1, m.endsBlock, end + |list|)
            && FirstAt(longer, agent + 1, m.isKey, agent + 1)
  {
    assert forall i | 1 <= i < |list| :: list[i] == list[1..][i - 1];
    FirstStays(lines, 0, m.isAgent, agent, agent + 1, list);
    FirstMoves(lines, agent + 1, m.endsBlock, end, agent + 1, list);
    assert Spliced(lines, agent + 1, list)[agent + 1] == list[0];
  }

  lemma NewListEnds(m: Marks, lines: seq<Line>, agent: nat, list: seq<Line>, listEnd: nat)
    requires agent < |lines| && FirstAt(lines, agent + 1, m.endsList, listEnd) && IsList(m, list)
    ensures FirstAt(Spliced(lines, agent + 1, list), agent + 2, m.endsList, listEnd + |list|)
  {
    var longer := Spliced(lines, agent + 1, list);
    forall i | agent + 2 <= i < listEnd + |list|
      ensures !m.endsList(longer[i])
    {
      if i < agent + 1 + |list| {
        assert longer[i] == list[1..][i - agent - 2];
      } else {
        assert longer[i] == lines[i - |list|];
      }
    }
    assert listEnd < |lines| ==> longer[listEnd + |list|] == lines[listEnd];
  }

  /** Without an agent block, the new one is found at the end. */
  lemma FindAfterNewAgent(m: Marks, lines: seq<Line>, gap: seq<Line>, agent: Line, list: seq<Line>)
    requires Find(m, lines) == NoAgent && IsList(m, list) && m.isAgent(agent)
    requires forall i | 0 <= i < |gap| :: !m.isAgent(gap[i])
    ensures var longer := lines + gap + [agent] + list;
            Find(m, longer) == List(|lines| + |gap| + 1, |longer|)
  {
    var longer, start := lines + gap + [agent] + list, |lines| + |gap|;
    forall i | 0 <= i < start
      ensures !m.isAgent(longer[i])
    {
      if i < |lines| {
        assert longer[i] == lines[i];
      } else {
        assert longer[i] == gap[i - |lines|];
      }
    }
    assert longer[start] == agent && longer[start + 1] == list[0];
    assert forall i | start + 1 < i < |longer| :: longer[i] == list[1..][i - start - 2];
    FindIs(m, longer, start, |longer|, start + 1, |longer|);
  }

  /** The list a merge leaves behind. */
  function MergedItems(m: Marks, lines: seq<Line>, names: seq<string>): seq<Line> {
    match Find(m, lines)
    case NoAgent => Items(m, names)
    case NoKey(agent) => Items(m, names) + lines[agent + 1..First(lines, agent + 1, m.endsList)]
    case List(key, end) => lines[key + 1..end] + Items(m, Missing(m, lines[key + 1..end], names))
  }

  /** `lines` is `pre`, the key, `list` and `post`, and this is the list the block finders find. */
  ghost predicate Shows(m: Marks, lines: seq<Line>, pre: seq<Line>, key: Line, list: seq<Line>, post: seq<Line>) {
    && lines == pre + [key] + list + post
    && Find(m, lines) == List(|pre|, |pre| + 1 + |list|)
  }

  lemma NewAgentShows(m: Marks, lines: seq<Line>, names: seq<string>)
    requires Suits(m)
    requires Find(m, lines) == NoAgent
    ensures Shows(m, Merged(m, lines, names), lines + Gap(lines) + [m.agent], m.key, MergedItems(m, lines, names), [])
  {
    NewListIsList(m, names);
    FindAfterNewAgent(m, lines, Gap(lines), m.agent, NewList(m, names));
    Regroup(lines + Gap(lines) + [m.agent], m.key, Items(m, names), [], []);
  }

  /** The same lines, bracketed in two ways. */
  lemma Regroup(pre: seq<Line>, key: Line, items: seq<Line>, after: seq<Line>, post: seq<Line>)
    ensures pre + ([key] + items) + (after + post) == pre + [key] + (items + after) + post
    ensures pre + ([key] + items) == pre + [key] + items + []
  {
  }

  lemma RegroupList(pre: seq<Line>, key: Line, list: seq<Line>, more: seq<Line>, post: seq<Line>)
    ensures (pre + [key] + list) + more + post == pre + [key] + (list + more) + post
  {
  }

  lemma Parts(lines: seq<Line>, key: nat, end: nat)
    requires key < end <= |lines|
    ensures lines[..end] == lines[..key] + [lines[key]] + lines[key + 1..end]
    ensures lines == lines[..key] + [lines[key]] + lines[key + 1..end] + lines[end..]
  {
  }

  lemma NewKeyShows(m: Marks, lines: seq<Line>, agent: nat, names: seq<string>)
    requires Suits(m)
    requires Find(m, lines) == NoKey(agent)
    ensures Shows(m, Merged(m, lines, names), lines[..agent + 1], m.key, MergedItems(m, lines, names),
                  lines[First(lines, agent + 1, m.endsList)..])
  {
    NewListIsList(m, names);
    FindAfterNewKey(m, lines, agent, NewList(m, names));
    RegroupSpliced(lines, agent + 1, First(lines, agent + 1, m.endsList), m.key, Items(m, names));
  }

  lemma RegroupSpliced(lines: seq<Line>, at: nat, end: nat, key: Line, items: seq<Line>)
    requires at <= end <= |lines|
    ensures Spliced(lines, at, [key] + items) == lines[..at] + [key] + (items + lines[at..end]) + lines[end..]
    ensures |lines[..at]| == at && |items + lines[at..end]| == |items| + (end - at)
  {
    assert lines[at..] == lines[at..end] + lines[end..];
    Regroup(lines[..at], key, items, lines[at..end], lines[end..]);
  }

  lemma OldListShows(m: Marks, lines: seq<Line>, key: nat, end: nat, names: seq<string>)
    requires Suits(m)
    requires Find(m, lines) == List(key, end)
    ensures Shows(m, Merged(m, lines, names), lines[..key], lines[key], MergedItems(m, lines, names), lines[end..])
  {
    var missing := Missing(m, lines[key + 1..end], names);
    ItemsAreItems(m, missing);
    LongerListShows(m, lines, key, end, Items(m, missing));
  }

  lemma LongerListShows(m: Marks, lines: seq<Line>, key: nat, end: nat, more: seq<Line>)
    requires Find(m, lines) == List(key, end) && ListsStayInBlocks(m) && AreItems(m, more)
    ensures Shows(m, Spliced(lines, end, more), lines[..key], lines[key], lines[key + 1..end] + more, lines[end..])
  {
    FindAfterAppending(m, lines, key, end, more);
    Parts(lines, key, end);
    RegroupList(lines[..key], lines[key], lines[key + 1..end], more, lines[end..]);
  }

  // ----- what merging achieves -----

  lemma {:induction false} FilterHas<T>(xs: seq<T>, p: T -> bool, x: T)
    ensures x in Filter(xs, p) <==> x in xs && p(x)
  {
    if xs != [] {
      FilterHas(xs[1..], p, x);
      assert x in xs <==> x == xs[0] || x in xs[1..];
    }
  }

  lemma ListsItems(m: Marks, names: seq<string>, name: string)
    requires Suits(m)
    requires IsPlain(name) && name in names
    ensures Lists(m, Items(m, names), name)
  {
    var i :| 0 <= i < |names| && names[i] == name;
    assert ReadsItem(m, name);
    assert m.nameOf(Items(m, names)[i]) == name;
  }

  lemma ListsEither(m: Marks, a: seq<Line>, b: seq<Line>, name: string)
    ensures Lists(m, a + b, name) <==> Lists(m, a, name) || Lists(m, b, name)
  {
    if Lists(m, a, name) {
      var i :| 0 <= i < |a| && m.nameOf(a[i]) == name;
      assert (a + b)[i] == a[i];
    }
    if Lists(m, b, name) {
      var i :| 0 <= i < |b| && m.nameOf(b[i]) == name;
      assert (a + b)[|a| + i] == b[i];
    }
  }

  lemma MergedItemsList(m: Marks, lines: seq<Line>, names: seq<string>, name: string)
    requires Suits(m)
    requires IsPlain(name) && name in names
    ensures Lists(m, MergedItems(m, lines, names), name)
  {
    match Find(m, lines)
    case NoAgent => ListsItems(m, names, name);
    case NoKey(agent) =>
      ListsItems(m, names, name);
      ListsEither(m, Items(m, names), lines[agent + 1..First(lines, agent + 1, m.endsList)], name);
    case List(key, end) => LongerListLists(m, lines[key + 1..end], names, name);
  }

  lemma LongerListLists(m: Marks, list: seq<Line>, names: seq<string>, name: string)
    requires Suits(m) && IsPlain(name) && name in names
    ensures Lists(m, list + Items(m, Missing(m, list, names)), name)
  {
    ListsEither(m, list, Items(m, Missing(m, list, names)), name);
    if !Lists(m, list, name) {
      FilterHas(names, n => !Lists(m, list, n), name);
      ListsItems(m, Missing(m, list, names), name);
    }
  }

  ghost predicate AllPlain(names: seq<string>) {
    forall name | name in names :: IsPlain(name)
  }

  /** The list found in the file, empty when there is none. */
  function FoundList(m: Marks, lines: seq<Line>): seq<Line> {
    match Find(m, lines)
    case NoAgent => []
    case NoKey(_) => []
    case List(key, end) => lines[key + 1..end]
  }

  lemma MergedShows(m: Marks, lines: seq<Line>, names: seq<string>) returns (pre: seq<Line>, key: Line, post: seq<Line>)
    requires Suits(m)
    ensures Shows(m, Merged(m, lines, names), pre, key, MergedItems(m, lines, names), post)
  {
    match Find(m, lines)
    case NoAgent =>
      NewAgentShows(m, lines, names);
      pre, key, post := lines + Gap(lines) + [m.agent], m.key, [];
    case NoKey(agent) =>
      NewKeyShows(m, lines, agent, names);
      pre, key, post := lines[..agent + 1], m.key, lines[First(lines, agent + 1, m.endsList)..];
    case List(k, end) =>
      OldListShows(m, lines, k, end, names);
      pre, key, post := lines[..k], lines[k], lines[end..];
  }

  lemma ShownIsFound(m: Marks, lines: seq<Line>, pre: seq<Line>, key: Line, list: seq<Line>, post: seq<Line>)
    requires Shows(m, lines, pre, key, list, post)
    ensures FoundList(m, lines) == list
  {
  }

  /** After a merge every name is listed, and merging again changes nothing. */
  lemma MergeListsAll(m: Marks, lines: seq<Line>, names: seq<string>)
    requires Suits(m)
    requires AllPlain(names)
    ensures forall name | name in names :: Lists(m, FoundList(m, Merged(m, lines, names)), name)
    ensures Merged(m, Merged(m, lines, names), names) == Merged(m, lines, names)
  {
    var merged, list := Merged(m, lines, names), MergedItems(m, lines, names);
    var pre, key, post := MergedShows(m, lines, names);
    ShownIsFound(m, merged, pre, key, list, post);
    forall name | name in names
      ensures Lists(m, list, name)
    {
      MergedItemsList(m, lines, names, name);
    }
    NothingMissing(m, list, names);
    MergesNothing(m, merged, pre, key, list, post, names);
  }

  lemma NothingMissing(m: Marks, list: seq<Line>, names: seq<string>)
    requires forall name | name in names :: Lists(m, list, name)
    ensures Missing(m, list, names) == []
  {
    forall i | 0 <= i < |names|
      ensures Lists(m, list, names[i])
    {
      assert names[i] in names;
    }
    FilterNone(names, name => !Lists(m, list, name));
  }

  lemma MergesNothing(
    m: Marks, lines: seq<Line>, pre: seq<Line>, key: Line, list: seq<Line>, post: seq<Line>, names: seq<string>)
    requires Shows(m, lines, pre, key, list, post) && Missing(m, list, names) == []
    ensures Merged(m, lines, names) == lines
  {
    ShownIsFound(m, lines, pre, key, list, post);
    assert Items(m, []) == [];
    assert Spliced(lines, |pre| + 1 + |list|, []) == lines;
  }

  /** Merging never drops, changes or reorders a line. */
  lemma MergeKeepsLines(m: Marks, lines: seq<Line>, names: seq<string>)
    ensures Subsequence(lines, Merged(m, lines, names))
  {
    var place, merged := Find(m, lines), Merged(m, lines, names);
    if place.NoAgent? {
      AppendedKeepsLines(lines, Gap(lines), [m.agent], NewList(m, names), merged);
    } else {
      var at := if place.NoKey? then place.agent + 1 else place.end;
      var more := if place.NoKey? then NewList(m, names) else MissingItems(m, lines, place, names);
      InsertedKeepsLines(lines, at, more, merged);
    }
  }

  function MissingItems(m: Marks, lines: seq<Line>, place: Place, names: seq<string>): seq<Line>
    requires place.List? && place.key < place.end <= |lines|
  {
    Items(m, Missing(m, lines[place.key + 1..place.end], names))
  }

  lemma AppendedKeepsLines(lines: seq<Line>, a: seq<Line>, b: seq<Line>, c: seq<Line>, longer: seq<Line>)
    requires longer == lines + a + b + c
    ensures Subsequence(lines, longer)
  {
    SubsequenceOfInsertion(lines, a + b + c, []);
    Trailing(lines, a, b, c);
  }

  lemma Trailing(lines: seq<Line>, a: seq<Line>, b: seq<Line>, c: seq<Line>)
    ensures lines + (a + b + c) + [] == lines + a + b + c && lines + [] == lines
  {
  }

  lemma InsertedKeepsLines(lines: seq<Line>, at: nat, more: seq<Line>, longer: seq<Line>)
    requires at <= |lines| && longer == Spliced(lines, at, more)
    ensures Subsequence(lines, longer)
  {
    SubsequenceOfInsertion(lines[..at], more, lines[at..]);
    assert lines == lines[..at] + lines[at..];
  }

  // ----- undoing a merge -----

  lemma RemovedShown(
    m: Marks, lines: seq<Line>, pre: seq<Line>, key: Line, list: seq<Line>, post: seq<Line>, names: seq<string>)
    requires Shows(m, lines, pre, key, list, post)
    requires exists name :: name in names && Lists(m, list, name)
    ensures var remaining := Remaining(m, list, names);
            && |remaining| < |list|
            && Cleared(m, lines, names) == pre + (if remaining == [] then [] else [key] + remaining) + post
  {
    var name :| name in names && Lists(m, list, name);
    var i :| 0 <= i < |list| && m.nameOf(list[i]) == name;
    FilterSize(list, line => m.nameOf(line) !in names);
    ShownIsFound(m, lines, pre, key, list, post);
    assert lines[..|pre|] == pre && lines[|pre| + 1 + |list|..] == post;
  }

  lemma RemainingOfItems(m: Marks, names: seq<string>, some: seq<string>)
    requires Suits(m)
    requires AllPlain(some) && forall name | name in some :: name in names
    ensures Remaining(m, Items(m, some), names) == []
  {
    forall i | 0 <= i < |some|
      ensures m.nameOf(Items(m, some)[i]) in names
    {
      assert some[i] in some;
      assert ReadsItem(m, some[i]);
    }
    FilterNone(Items(m, some), line => m.nameOf(line) !in names);
  }

  /** Whether removing the names again gives back the file. */
  predicate UndoneExactly(m: Marks, lines: seq<Line>, names: seq<string>) {
    match Find(m, lines)
    case NoAgent => false
    case NoKey(agent) => agent + 1 == |lines| || m.endsList(lines[agent + 1])
    case List(key, end) => key + 1 < end && forall i | key < i < end :: m.nameOf(lines[i]) !in names
  }

  /**
   Removing the toolsets that were merged gives back the identical lines exactly when the list existed,
   was not empty and named none of them; or when the `agent:` block had no list and the line after
   `agent:`, if any, cannot be mistaken for one.
   */
  lemma RemoveUndoesMerge(m: Marks, lines: seq<Line>, names: seq<string>)
    requires Suits(m)
    requires AllPlain(names) && names != []
    ensures Cleared(m, Merged(m, lines, names), names) == lines <==> UndoneExactly(m, lines, names)
  {
    match Find(m, lines)
    case NoAgent => NewAgentStays(m, lines, names);
    case NoKey(agent) => NewKeyUndone(m, lines, agent, names);
    case List(key, end) => OldListUndone(m, lines, key, end, names);
  }

  lemma NewAgentStays(m: Marks, lines: seq<Line>, names: seq<string>)
    requires Suits(m)
    requires AllPlain(names) && names != [] && Find(m, lines) == NoAgent
    ensures |Cleared(m, Merged(m, lines, names), names)| > |lines|
  {
    MergedItemsList(m, lines, names, names[0]);
    NewAgentShows(m, lines, names);
    RemovedShown(m, Merged(m, lines, names), lines + Gap(lines) + [m.agent], m.key, Items(m, names), [], names);
    RemainingOfItems(m, names, names);
  }

  lemma NewKeyUndone(m: Marks, lines: seq<Line>, agent: nat, names: seq<string>)
    requires Suits(m)
    requires AllPlain(names) && names != [] && Find(m, lines) == NoKey(agent)
    ensures Cleared(m, Merged(m, lines, names), names) == lines
            <==> agent + 1 == |lines| || m.endsList(lines[agent + 1])
  {
    MergedItemsList(m, lines, names, names[0]);
    var end := First(lines, agent + 1, m.endsList);
    NewKeyShows(m, lines, agent, names);
    BelowAgent(m, lines, agent, end);
    RemovedNewKey(m, Merged(m, lines, names), lines[..agent + 1], m.key, names, lines[agent + 1..end], lines[end..]);
  }

  lemma BelowAgent(m: Marks, lines: seq<Line>, agent: nat, end: nat)
    requires agent < |lines| && FirstAt(lines, agent + 1, m.endsList, end) && m.endsList(m.key)
    ensures lines[..agent + 1] + lines[agent + 1..end] + lines[end..] == lines
    ensures lines[agent + 1..end] == [] <==> agent + 1 == |lines| || m.endsList(lines[agent + 1])
    ensures lines[agent + 1..end] != [] ==> lines[agent + 1..end][0] != m.key
  {
  }

  lemma RemovedNewKey(m: Marks, merged: seq<Line>, pre: seq<Line>, key: Line, names: seq<string>,
      after: seq<Line>, post: seq<Line>)
    requires Suits(m) && AllPlain(names) && names != []
    requires Shows(m, merged, pre, key, Items(m, names) + after, post) && Lists(m, Items(m, names) + after, names[0])
    requires after != [] ==> after[0] != key
    ensures Cleared(m, merged, names) == pre + after + post <==> after == []
  {
    RemovedShown(m, merged, pre, key, Items(m, names) + after, post, names);
    RemainingAfterItems(m, names, names, after);
    NewKeyGone(pre, key, after, post, Remaining(m, after, names));
  }

  /** Filtering the items of the names leaves what the filter leaves of the rest. */
  lemma RemainingAfterItems(m: Marks, names: seq<string>, some: seq<string>, after: seq<Line>)
    requires Suits(m)
    requires AllPlain(some) && forall name | name in some :: name in names
    ensures Remaining(m, Items(m, some) + after, names) == Remaining(m, after, names)
    ensures Remaining(m, after + Items(m, some), names) == Remaining(m, after, names)
    ensures |Remaining(m, after, names)| <= |after|
  {
    RemainingOfItems(m, names, some);
    FilterAppend(Items(m, some), after, line => m.nameOf(line) !in names);
    FilterAppend(after, Items(m, some), line => m.nameOf(line) !in names);
    FilterSize(after, line => m.nameOf(line) !in names);
    assert [] + Remaining(m, after, names) == Remaining(m, after, names);
    assert Remaining(m, after, names) + [] == Remaining(m, after, names);
  }

  lemma NewKeyGone(pre: seq<Line>, key: Line, after: seq<Line>, post: seq<Line>, remaining: seq<Line>)
    requires |remaining| <= |after| && (after != [] ==> after[0] != key)
    ensures pre + (if remaining == [] then [] else [key] + remaining) + post == pre + after + post <==> after == []
  {
    if after != [] && remaining != [] {
      assert (pre + ([key] + remaining) + post)[|pre|] == key;
      assert (pre + after + post)[|pre|] == after[0];
    } else if after != [] {
      assert |pre + [] + post| < |pre + after + post|;
    }
  }

  lemma OldListUndone(m: Marks, lines: seq<Line>, key: nat, end: nat, names: seq<string>)
    requires Suits(m)
    requires AllPlain(names) && names != [] && Find(m, lines) == List(key, end)
    ensures Cleared(m, Merged(m, lines, names), names) == lines
            <==> key + 1 < end && forall i | key < i < end :: m.nameOf(lines[i]) !in names
  {
    LongerListLists(m, lines[key + 1..end], names, names[0]);
    OldListShows(m, lines, key, end, names);
    ClearedOldList(m, Merged(m, lines, names), lines[..key], lines[key], lines[key + 1..end], lines[end..], names);
    Parts(lines, key, end);
    NothingFiltered(m, lines, key, end, names);
  }

  lemma ClearedOldList(
    m: Marks, merged: seq<Line>, pre: seq<Line>, key: Line, list: seq<Line>, post: seq<Line>, names: seq<string>)
    requires Suits(m) && AllPlain(names) && names != []
    requires var longer := list + Items(m, Missing(m, list, names));
             Shows(m, merged, pre, key, longer, post) && Lists(m, longer, names[0])
    ensures Cleared(m, merged, names) == pre + [key] + list + post
            <==> Remaining(m, list, names) != [] && Remaining(m, list, names) == list
  {
    var missing := Missing(m, list, names);
    RemovedShown(m, merged, pre, key, list + Items(m, missing), post, names);
    forall name | name in missing
      ensures name in names && IsPlain(name)
    {
      FilterHas(names, n => !Lists(m, list, n), name);
    }
    RemainingAfterItems(m, names, missing, list);
    OldListGone(pre, key, list, post, Remaining(m, list, names));
  }

  lemma OldListGone(pre: seq<Line>, key: Line, list: seq<Line>, post: seq<Line>, remaining: seq<Line>)
    ensures pre + (if remaining == [] then [] else [key] + remaining) + post == pre + [key] + list + post
            <==> remaining != [] && remaining == list
  {
    if remaining == [] {
      assert |pre + [] + post| < |pre + [key] + list + post|;
    } else {
      SameMiddle(pre + [key], remaining, list, post);
      assert pre + ([key] + remaining) + post == pre + [key] + remaining + post;
    }
  }

  lemma NothingFiltered(m: Marks, lines: seq<Line>, key: nat, end: nat, names: seq<string>)
    requires key < end <= |lines|
    ensures Remaining(m, lines[key + 1..end], names) == lines[key + 1..end]
            <==> forall i | key < i < end :: m.nameOf(lines[i]) !in names
  {
    var list := lines[key + 1..end];
    FilterSize(list, line => m.nameOf(line) !in names);
    assert forall i | key < i < end :: lines[i] == list[i - key - 1];
    assert forall i | 0 <= i < |list| :: list[i] == lines[i + key + 1];
  }

  lemma SameMiddle(pre: seq<Line>, a: seq<Line>, b: seq<Line>, post: seq<Line>)
    ensures pre + a + post == pre + b + post <==> a == b
  {
    if pre + a + post == pre + b + post {
      assert |pre + a + post| == |pre + b + post|;
      assert a == (pre + a + post)[|pre|..|pre| + |a|];
      assert b == (pre + b + post)[|pre|..|pre| + |b|];
    }
  }

  /** The editor's own marks suit, so all of this holds of the editor. */
  lemma HermesRoundTrip(lines: seq<Line>, names: seq<string>)
    requires AllPlain(names) && names != []
    ensures Cleared(HERMES, Merged(HERMES, lines, names), names) == lines <==> UndoneExactly(HERMES, lines, names)
    ensures Merged(HERMES, Merged(HERMES, lines, names), names) == Merged(HERMES, lines, names)
    ensures forall name | name in names :: Lists(HERMES, FoundList(HERMES, Merged(HERMES, lines, names)), name)
  {
    HermesSuits();
    RemoveUndoesMerge(HERMES, lines, names);
    MergeListsAll(HERMES, lines, names);
  }

  // ----- what removing takes out -----

  /** `rest` is `list` in its order, without the items named and with every copy of the others. */
  ghost predicate WithoutNamed(m: Marks, list: seq<Line>, names: seq<string>, rest: seq<Line>) {
    && Subsequence(rest, list)
    && forall line :: multiset(rest)[line] == if m.nameOf(line) in names then 0 else multiset(list)[line]
  }

  /**
   Removing takes exactly the named items out of the list that was found, and the key with them when no line
   of the list is left; a list without any of them, and all lines outside it, stay as they are.
   */
  lemma ClearedExactly(m: Marks, lines: seq<Line>, key: nat, end: nat, names: seq<string>) returns (rest: seq<Line>)
    requires Find(m, lines) == List(key, end)
    ensures WithoutNamed(m, lines[key + 1..end], names, rest)
    ensures Cleared(m, lines, names)
         == if |rest| == end - (key + 1) then lines
            else lines[..key] + (if rest == [] then [] else [lines[key]] + rest) + lines[end..]
  {
    rest := Remaining(m, lines[key + 1..end], names);
    RemainingIsWithout(m, lines[key + 1..end], names);
  }

  lemma NothingToClear(m: Marks, lines: seq<Line>, names: seq<string>)
    requires !Find(m, lines).List?
    ensures Cleared(m, lines, names) == lines
  {
  }

  lemma RemainingIsWithout(m: Marks, list: seq<Line>, names: seq<string>)
    ensures WithoutNamed(m, list, names, Remaining(m, list, names))
  {
    var p := line => m.nameOf(line) !in names;
    FilterIsSubsequence(list, p);
    forall line
      ensures multiset(Filter(list, p))[line] == if m.nameOf(line) in names then 0 else multiset(list)[line]
    {
      FilterCounts(list, p, line);
    }
  }

  /** A file without an agent block gets one at its end, after a blank line if it had any, with a list of the names. */
  lemma NewBlockReads(m: Marks, lines: seq<Line>, names: seq<string>)
    requires Suits(m) && AllPlain(names) && Find(m, lines) == NoAgent
    ensures exists gap, agent, key, items ::
              && Merged(m, lines, names) == lines + gap + [agent] + ([key] + items)
              && BlockReads(m, lines, names, gap, agent, key, items)
  {
    forall i | 0 <= i < |names|
      ensures m.nameOf(Item(m, names[i])) == names[i]
    {
      assert names[i] in names && ReadsItem(m, names[i]);
    }
    assert m.isKey(m.key);
    assert BlockReads(m, lines, names, Gap(lines), m.agent, m.key, Items(m, names));
  }

  ghost predicate BlockReads(
    m: Marks, lines: seq<Line>, names: seq<string>, gap: seq<Line>, agent: Line, key: Line, items: seq<Line>)
  {
    && gap == (if lines == [] then [] else [""])
    && m.isAgent(agent) && m.isKey(key)
    && |items| == |names| && forall i | 0 <= i < |names| :: m.nameOf(items[i]) == names[i]
  }

  lemma RemainingSize(m: Marks, list: seq<Line>, names: seq<string>)
    ensures |Remaining(m, list, names)| <= |list|
  {
    FilterSize(list, line => m.nameOf(line) !in names);
  }

  // ----- one more item -----

  lemma OneMoreItem(m: Marks, names: seq<string>, name: string)
    ensures Items(m, names + [name]) == Items(m, names) + [Item(m, name)]
  {
  }

  lemma OneMoreMissing(m: Marks, list: seq<Line>, names: seq<string>, name: string)
    ensures Missing(m, list, names + [name]) == Missing(m, list, names) + if Lists(m, list, name) then [] else [name]
  {
    FilterAppend(names, [name], n => !Lists(m, list, n));
    assert [name][1..] == [];
  }
}
