/** Registering the MCP server in the Hermes configuration, and taking it out again. */
module HermesMcp {
  import opened Wrappers
  import opened HermesText
  import opened Utf8

  const DRUN := "  drun:"
  const SERVERS := "mcp_servers:"

  predicate IsDrun(line: Line) {
    TrimEnd(line) == DRUN
  }

  predicate IsServers(line: Line) {
    TrimEnd(line) == SERVERS
  }

  /** A line that counts as part of the entry above it. */
  predicate IsInside(line: Line) {
    IsBlank(line) || Indent(line) >= 3
  }

  predicate HasEntry(lines: seq<Line>) {
    exists i :: 0 <= i < |lines| && IsDrun(lines[i])
  }

  /** A line inside the entry. */
  function Under(text: string): Line {
    "    " + text
  }

  function Entry(url: string): seq<Line> {
    var text := EntryText(url);
    [DRUN, Under(text[0]), Under(text[1]), Under(text[2])]
  }

  function EntryText(url: string): (r: seq<string>)
    ensures |r| == 3
  {
    ["url: \"" + url + "\"", "headers:", "  Accept: \"application/json, text/event-stream\""]
  }

  /** The file with an entry added under `mcp_servers:`, which is appended when missing. */
  function Merged(lines: seq<Line>, entry: seq<Line>): seq<Line> {
    if HasEntry(lines) then lines
    else
      var pos := First(lines, 0, IsServers);
      if pos < |lines| then InsertedAfter(lines, pos, entry)
      else lines + Heading(lines) + entry
  }

  function InsertedAfter(lines: seq<Line>, pos: nat, entry: seq<Line>): seq<Line>
    requires pos < |lines|
  {
    lines[..pos + 1] + entry + lines[pos + 1..]
  }

  function Heading(lines: seq<Line>): seq<Line> {
    (if lines == [] then [] else [""]) + [SERVERS]
  }

  /** The file without its entries; `skipping` says that the line before belonged to one. */
  function Stripped(lines: seq<Line>, skipping: bool): seq<Line> {
    if lines == [] then []
    else if IsDrun(lines[0]) then Stripped(lines[1..], true)
    else if skipping && IsInside(lines[0]) then Stripped(lines[1..], true)
    else [lines[0]] + Stripped(lines[1..], false)
  }

  /** An opening line followed by lines inside the entry. */
  ghost predicate IsBlock(entry: seq<Line>) {
    && entry != [] && IsDrun(entry[0])
    && forall i | 1 <= i < |entry| :: IsInside(entry[i]) && !IsDrun(entry[i])
  }

  lemma EntryIsBlock(url: string)
    ensures IsBlock(Entry(url))
  {
    forall i | 1 <= i < 4
      ensures IsInside(Entry(url)[i]) && !IsDrun(Entry(url)[i])
    {
      UnderIsInside(EntryText(url)[i - 1]);
    }
  }

  /** Four spaces of indentation put a line inside an entry and keep it from opening one. */
  lemma UnderIsInside(text: string)
    ensures IsInside(Under(text)) && !IsDrun(Under(text))
  {
    var line := Under(text);
    assert line[0] == line[1] == line[2] == line[3] == ' ';
    assert Indent(line) == 1 + Indent(line[1..]);
    assert Indent(line[1..]) == 1 + Indent(line[1..][1..]);
    assert line[1..][1..] == line[2..];
    assert Indent(line[2..]) == 1 + Indent(line[2..][1..]);
    TrimEndIsPrefix(line);
    assert |TrimEnd(line)| > 2 ==> TrimEnd(line)[2] == line[2];
  }

  lemma {:induction false} StrippedWithoutEntry(lines: seq<Line>)
    requires !HasEntry(lines)
    ensures Stripped(lines, false) == lines
  {
    if lines != [] {
      TailHasNoEntry(lines);
      StrippedWithoutEntry(lines[1..]);
    }
  }

  lemma TailHasNoEntry(lines: seq<Line>)
    requires lines != [] && !HasEntry(lines)
    ensures !IsDrun(lines[0]) && !HasEntry(lines[1..])
  {
    forall i | 0 <= i < |lines[1..]|
      ensures !IsDrun(lines[1..][i])
    {
      assert lines[1..][i] == lines[i + 1];
    }
  }

  /** Before the first entry nothing is dropped. */
  lemma {:induction false} StrippedAfterPlain(plain: seq<Line>, rest: seq<Line>)
    requires !HasEntry(plain)
    ensures Stripped(plain + rest, false) == plain + Stripped(rest, false)
  {
    if plain == [] {
      assert plain + rest == rest;
    } else {
      TailHasNoEntry(plain);
      StrippedAfterPlain(plain[1..], rest);
      assert (plain + rest)[1..] == plain[1..] + rest;
    }
  }

  /** What follows an entry loses its leading lines that look like more of the entry. */
  lemma {:induction false} StrippedWhileSkipping(lines: seq<Line>)
    requires !HasEntry(lines)
    ensures |Stripped(lines, true)| <= |lines|
    ensures Stripped(lines, true) == lines <==> lines == [] || !IsInside(lines[0])
  {
    if lines != [] {
      TailHasNoEntry(lines);
      StrippedStep(lines);
      if IsInside(lines[0]) {
        StrippedWhileSkipping(lines[1..]);
      } else {
        StrippedWithoutEntry(lines[1..]);
        assert lines == [lines[0]] + lines[1..];
      }
    }
  }

  lemma StrippedStep(lines: seq<Line>)
    requires lines != [] && !IsDrun(lines[0])
    ensures Stripped(lines, true)
         == if IsInside(lines[0]) then Stripped(lines[1..], true) else [lines[0]] + Stripped(lines[1..], false)
  {
  }

  lemma {:induction false} StrippedInside(inside: seq<Line>, rest: seq<Line>)
    requires forall i | 0 <= i < |inside| :: IsInside(inside[i]) && !IsDrun(inside[i])
    ensures Stripped(inside + rest, true) == Stripped(rest, true)
  {
    if inside == [] {
      assert inside + rest == rest;
    } else {
      StrippedInside(inside[1..], rest);
      assert (inside + rest)[1..] == inside[1..] + rest;
    }
  }

  lemma StrippedOpening(head: Line, rest: seq<Line>, skipping: bool)
    requires IsDrun(head)
    ensures Stripped([head] + rest, skipping) == Stripped(rest, true)
  {
    assert ([head] + rest)[1..] == rest;
  }

  lemma StrippedBlock(entry: seq<Line>, rest: seq<Line>)
    requires IsBlock(entry)
    ensures Stripped(entry + rest, false) == Stripped(rest, true)
  {
    assert entry + rest == [entry[0]] + (entry[1..] + rest);
    StrippedOpening(entry[0], entry[1..] + rest, false);
    StrippedInside(entry[1..], rest);
  }

  /** Whether taking the entry out again gives back the file. */
  predicate UndoneExactly(lines: seq<Line>) {
    var pos := First(lines, 0, IsServers);
    pos < |lines| && (pos + 1 == |lines| || !IsInside(lines[pos + 1]))
  }

  lemma SliceHasNoEntry(lines: seq<Line>, i: nat, j: nat)
    requires !HasEntry(lines) && i <= j <= |lines|
    ensures !HasEntry(lines[i..j])
  {
    forall k | 0 <= k < |lines[i..j]|
      ensures !IsDrun(lines[i..j][k])
    {
      assert lines[i..j][k] == lines[i + k];
    }
  }

  /**
   Removing what merging added gives back the identical lines exactly when the file had no entry, and a
   `mcp_servers:` line, and the line after it, if any, cannot be mistaken for the inside of an entry.
   */
  lemma RemoveUndoesMerge(lines: seq<Line>, url: string)
    ensures Stripped(Merged(lines, Entry(url)), false) == lines <==> !HasEntry(lines) && UndoneExactly(lines)
  {
    RemoveKeepsLines(Merged(lines, Entry(url)), false);
    if !HasEntry(lines) {
      RemoveUndoesFirstMerge(lines, url);
    }
  }

  lemma RemoveUndoesFirstMerge(lines: seq<Line>, url: string)
    requires !HasEntry(lines)
    ensures Stripped(Merged(lines, Entry(url)), false) == lines <==> UndoneExactly(lines)
  {
    EntryIsBlock(url);
    var pos := First(lines, 0, IsServers);
    if pos < |lines| {
      UndoneUnder(lines, Entry(url), pos);
    } else {
      NotUndoneAtEnd(lines, Entry(url));
    }
  }

  lemma UndoneUnder(lines: seq<Line>, entry: seq<Line>, pos: nat)
    requires !HasEntry(lines) && IsBlock(entry) && pos < |lines|
    ensures Stripped(InsertedAfter(lines, pos, entry), false) == lines
            <==> pos + 1 == |lines| || !IsInside(lines[pos + 1])
  {
    var pre, post := lines[..pos + 1], lines[pos + 1..];
    SliceHasNoEntry(lines, 0, pos + 1);
    SliceHasNoEntry(lines, pos + 1, |lines|);
    Split(lines, pos + 1, entry);
    StrippedAround(pre, entry, post);
  }

  lemma Split(lines: seq<Line>, k: nat, entry: seq<Line>)
    requires k <= |lines|
    ensures lines[..k] + entry + lines[k..] == lines[..k] + (entry + lines[k..])
    ensures lines[..k] + lines[k..] == lines
    ensures lines[0..k] == lines[..k] && lines[k..|lines|] == lines[k..]
  {
  }

  lemma StrippedAround(pre: seq<Line>, entry: seq<Line>, post: seq<Line>)
    requires !HasEntry(pre) && !HasEntry(post) && IsBlock(entry)
    ensures Stripped(pre + (entry + post), false) == pre + Stripped(post, true)
    ensures Stripped(pre + (entry + post), false) == pre + post <==> post == [] || !IsInside(post[0])
  {
    StrippedAfterPlain(pre, entry + post);
    StrippedBlock(entry, post);
    StrippedWhileSkipping(post);
    SameAfter(pre, Stripped(post, true), post);
  }

  lemma NotUndoneAtEnd(lines: seq<Line>, entry: seq<Line>)
    requires !HasEntry(lines) && IsBlock(entry) && First(lines, 0, IsServers) == |lines|
    ensures |Stripped(Merged(lines, entry), false)| > |lines|
  {
    var pre := lines + Heading(lines);
    HeadingHasNoEntry(lines);
    assert Merged(lines, entry) == pre + (entry + []);
    StrippedAfterPlain(pre, entry + []);
    StrippedBlock(entry, []);
  }

  lemma HeadingHasNoEntry(lines: seq<Line>)
    requires !HasEntry(lines)
    ensures !HasEntry(lines + Heading(lines))
  {
    assert TrimEnd("") == "" && TrimEnd(SERVERS) == SERVERS;
    forall i | |lines| <= i < |lines + Heading(lines)|
      ensures !IsDrun((lines + Heading(lines))[i])
    {
    }
  }

  lemma SameAfter(pre: seq<Line>, a: seq<Line>, b: seq<Line>)
    ensures pre + a == pre + b <==> a == b
  {
    if pre + a == pre + b {
      assert a == (pre + a)[|pre|..] && b == (pre + b)[|pre|..];
    }
  }

  /** Merging leaves all lines in place and in order, and a second time changes nothing. */
  lemma MergeKeepsLines(lines: seq<Line>, url: string)
    ensures var merged := Merged(lines, Entry(url));
            Subsequence(lines, merged) && HasEntry(merged) && Merged(merged, Entry(url)) == merged
  {
    EntryIsBlock(url);
    var (entry, pos) := (Entry(url), First(lines, 0, IsServers));
    if HasEntry(lines) {
      MergedAround(lines, [], [], [], lines);
    } else if pos < |lines| {
      assert lines == lines[..pos + 1] + lines[pos + 1..];
      MergedAround(lines[..pos + 1], [], entry, lines[pos + 1..], Merged(lines, entry));
    } else {
      MergedAround(lines, Heading(lines), entry, [], Merged(lines, entry));
    }
  }

  lemma MergedAround(pre: seq<Line>, heading: seq<Line>, entry: seq<Line>, post: seq<Line>, merged: seq<Line>)
    requires merged == pre + heading + entry + post
    ensures Subsequence(pre + post, merged) && (post == [] ==> Subsequence(pre, merged))
    ensures IsBlock(entry) ==> HasEntry(merged)
  {
    SubsequenceOfInsertion(pre, heading + entry, post);
    assert merged == pre + (heading + entry) + post;
    assert post == [] ==> pre + post == pre;
    if IsBlock(entry) {
      assert merged[|pre| + |heading|] == entry[0];
    }
  }

  /** A quoted url on a line of its own. */
  ghost predicate Names(line: Line, url: string) {
    && |line| == |url| + 11
    && line[..10] == "    url: \""
    && line[10..10 + |url|] == url && line[|line| - 1] == '"'
  }

  /** The entry stands right below the first `mcp_servers:` line, which is new only when there was none. */
  ghost predicate PlacedAt(lines: seq<Line>, merged: seq<Line>, entry: seq<Line>, pos: nat) {
    && pos + 1 + |entry| <= |merged| && IsServers(merged[pos])
    && (forall i | 0 <= i < pos :: !IsServers(merged[i]))
    && merged[pos + 1..pos + 1 + |entry|] == entry
    && if pos < |lines| then merged[..pos + 1] == lines[..pos + 1] && merged[pos + 1 + |entry|..] == lines[pos + 1..]
       else
         && merged[..|lines|] == lines && |merged| == pos + 1 + |entry|
         && pos == |lines| + (if lines == [] then 0 else 1) && (lines != [] ==> merged[|lines|] == "")
  }

  ghost predicate EntryFor(entry: seq<Line>, url: string) {
    && |entry| == 4
    && entry[0] == "  drun:" && Names(entry[1], url) && entry[2] == "    headers:"
    && entry[3] == "    " + "  Accept: \"application/json, text/event-stream\""
  }

  /**
   After merging into a file without an entry, the first `mcp_servers:` line, which was there or is new at the
   end after a blank line, is followed by the entry with the url that was given; no other line is touched.
   */
  lemma EntryIsUnderServers(lines: seq<Line>, url: string)
    requires !HasEntry(lines)
    ensures exists pos: nat, entry :: EntryFor(entry, url) && PlacedAt(lines, Merged(lines, Entry(url)), entry, pos)
  {
    EntryNames(url);
    var pos := MergedPlaces(lines, Entry(url));
  }

  lemma MergedPlaces(lines: seq<Line>, entry: seq<Line>) returns (pos: nat)
    requires !HasEntry(lines)
    ensures PlacedAt(lines, Merged(lines, entry), entry, pos)
  {
    pos := First(lines, 0, IsServers);
    if pos < |lines| {
      InsertedPlaces(lines, entry, pos);
    } else {
      HeadingIsServers(lines);
      pos := |lines| + |Heading(lines)| - 1;
      AppendedPlaces(lines, Heading(lines), entry);
    }
  }

  lemma InsertedPlaces(lines: seq<Line>, entry: seq<Line>, pos: nat)
    requires pos < |lines| && IsServers(lines[pos]) && forall i | 0 <= i < pos :: !IsServers(lines[i])
    ensures PlacedAt(lines, InsertedAfter(lines, pos, entry), entry, pos)
  {
    var merged := InsertedAfter(lines, pos, entry);
    assert forall i | 0 <= i <= pos :: merged[i] == lines[i];
  }

  lemma AppendedPlaces(lines: seq<Line>, heading: seq<Line>, entry: seq<Line>)
    requires forall i | 0 <= i < |lines| :: !IsServers(lines[i])
    requires |heading| == (if lines == [] then 1 else 2) && (lines != [] ==> heading[0] == "" && !IsServers(heading[0]))
    requires IsServers(heading[|heading| - 1])
    ensures PlacedAt(lines, lines + heading + entry, entry, |lines| + |heading| - 1)
  {
    var merged := lines + heading + entry;
    assert forall i | 0 <= i < |lines| :: merged[i] == lines[i];
    assert forall i | 0 <= i < |heading| :: merged[|lines| + i] == heading[i];
  }

  lemma EntryNames(url: string)
    ensures EntryFor(Entry(url), url)
  {
    var line := Entry(url)[1];
    assert line == "    " + ("url: \"" + url + "\"");
    assert line[10..10 + |url|] == url;
  }

  lemma HeadingIsServers(lines: seq<Line>)
    ensures var heading := Heading(lines);
            && |heading| == (if lines == [] then 1 else 2) && IsServers(heading[|heading| - 1])
            && (lines != [] ==> heading[0] == "" && !IsServers(heading[0]))
  {
    assert TrimEnd(SERVERS) == SERVERS;
    assert TrimEnd("") == "";
  }

  /** The two lines the editor looks for may be followed by spaces, and by nothing else. */
  lemma MarkedLines(line: Line)
    ensures IsDrun(line) <==> 7 <= |line| && line[..7] == "  drun:" && AllSpace(line[7..])
    ensures IsServers(line) <==> 12 <= |line| && line[..12] == "mcp_servers:" && AllSpace(line[12..])
  {
    TrimEndExactly(line, DRUN);
    TrimEndExactly(line, SERVERS);
  }

  /** A line with text counts as part of the entry above exactly when at least three bytes of white space precede it. */
  lemma InsideIsIndented(white: string, rest: string)
    requires AllSpace(white) && rest != "" && !IsSpace(rest[0])
    ensures IsInside(white + rest) <==> ByteLength(white) >= 3
  {
    IndentIsBytes(white, rest);
    BlankIsAllSpace(white + rest);
    assert (white + rest)[|white|] == rest[0];
  }

  predicate IsKeeper(line: Line) {
    !IsDrun(line) && !IsInside(line)
  }

  /** Removing leaves no entry, invents no line, and keeps all lines that could not be part of one. */
  lemma {:induction false} RemoveKeepsLines(lines: seq<Line>, skipping: bool)
    ensures !HasEntry(Stripped(lines, skipping))
    ensures Subsequence(Stripped(lines, skipping), lines)
    ensures Filter(Stripped(lines, skipping), IsKeeper) == Filter(lines, IsKeeper)
  {
    if lines != [] {
      if IsDrun(lines[0]) || (skipping && IsInside(lines[0])) {
        RemoveKeepsLines(lines[1..], true);
      } else {
        var rest := Stripped(lines[1..], false);
        RemoveKeepsLines(lines[1..], false);
        assert ([lines[0]] + rest)[1..] == rest;
      }
    }
  }
}
