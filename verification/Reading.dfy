/** Reading a file of the current checkpoint: windows, paging and pattern search. */
module Reading {
  import opened Wrappers
  import opened History
  import opened Store
  import opened Effects
  import opened Blobs
  import opened Sessions

  // ----- lines -----

  const NEWLINE: byte := 10
  const RETURN: byte := 13

  /** The first newline from `from` on, or the end. */
  function NextNewline(text: Bytes, from: nat): (r: nat)
    requires from <= |text|
    ensures from <= r <= |text|
    ensures r < |text| ==> text[r] == NEWLINE
    ensures forall i | from <= i < r :: text[i] != NEWLINE
    decreases |text| - from
  {
    if from == |text| || text[from] == NEWLINE then from else NextNewline(text, from + 1)
  }

  function Newlines(text: Bytes): nat {
    if text == [] then 0 else Newlines(text[..|text| - 1]) + if text[|text| - 1] == NEWLINE then 1 else 0
  }

  predicate StartsLine(text: Bytes, p: nat) {
    p < |text| && (p == 0 || text[p - 1] == NEWLINE)
  }

  function WithoutLast(text: Bytes, last: byte): Bytes {
    if text != [] && text[|text| - 1] == last then text[..|text| - 1] else text
  }

  /** The line that starts at `p`, without its line ending. */
  function LineAt(text: Bytes, p: nat): Bytes
    requires p <= |text|
  {
    WithoutLast(text[p..NextNewline(text, p)], RETURN)
  }

  /** A line ends before `\n`, before `\r\n`, or at the end of the text, where one `\r` is dropped too. */
  lemma LineEndings(before: Bytes, line: Bytes, ending: Bytes, rest: Bytes)
    requires NEWLINE !in line && RETURN !in line
    requires ending == [NEWLINE] || ending == [RETURN, NEWLINE] || (rest == [] && (ending == [] || ending == [RETURN]))
    ensures LineAt(before + line + (ending + rest), |before|) == line
  {
    assert line != [] ==> line[|line| - 1] in line;
    if ending != [] && ending[0] == RETURN {
      LineEndsAt(before, line + [RETURN], ending[1..] + rest);
      SameText(before, line, ending, rest);
    } else {
      LineEndsAt(before, line, ending + rest);
    }
  }

  lemma SameText(before: Bytes, line: Bytes, ending: Bytes, rest: Bytes)
    requires ending != []
    ensures before + line + (ending + rest) == before + (line + [ending[0]]) + (ending[1..] + rest)
  {
    assert ending == [ending[0]] + ending[1..];
  }

  lemma LineEndsAt(before: Bytes, raw: Bytes, after: Bytes)
    requires NEWLINE !in raw && (after != [] ==> after[0] == NEWLINE)
    ensures LineAt(before + raw + after, |before|) == WithoutLast(raw, RETURN)
  {
    var text, p := before + raw + after, |before|;
    var q := NextNewline(text, p);
    assert forall i | 0 <= i < |raw| :: text[p + i] == raw[i] && raw[i] in raw;
    assert after != [] ==> text[p + |raw|] == NEWLINE;
    assert q == p + |raw|;
    assert text[p..q] == raw;
  }

  // ----- pattern search -----

  datatype GrepMatch = GrepMatch(lineNumber: nat, byteOffset: nat, line: Bytes)

  datatype GrepResult = GrepResult(matches: seq<GrepMatch>, totalMatches: nat)

  /** A match that tells the truth: its line starts at its offset and has its number and text. */
  ghost predicate Reported(text: Bytes, found: GrepMatch) {
    && StartsLine(text, found.byteOffset)
    && found.line == LineAt(text, found.byteOffset)
    && found.lineNumber == Newlines(text[..found.byteOffset]) + 1
  }

  ghost predicate HasMatchAt(matches: seq<GrepMatch>, p: nat) {
    exists i :: 0 <= i < |matches| && matches[i].byteOffset == p
  }

  /** `matches` are exactly the matching lines that start before `end`, in order. */
  ghost predicate FindsAll(text: Bytes, isMatch: Bytes -> bool, matches: seq<GrepMatch>, end: nat) {
    && (forall i | 0 <= i < |matches| ::
          Reported(text, matches[i]) && isMatch(matches[i].line) && matches[i].byteOffset < end)
    && (forall i, j | 0 <= i < j < |matches| :: matches[i].byteOffset < matches[j].byteOffset)
    && (forall p: nat | p < end && StartsLine(text, p) && isMatch(LineAt(text, p)) :: HasMatchAt(matches, p))
  }

  method Grep(text: Bytes, isUtf8: Bytes -> bool, pattern: Option<Bytes -> bool>) returns (r: Result<GrepResult>)
    ensures !isUtf8(text) ==> r == Failure(BinaryContent)
    ensures isUtf8(text) && pattern.None? ==> r == Failure(InvalidPattern)
    ensures isUtf8(text) && pattern.Some? ==>
              && r.Success?
              && FindsAll(text, pattern.value, r.value.matches, |text|)
              && r.value.totalMatches == |r.value.matches|
  {
    if !isUtf8(text) {
      return Failure(BinaryContent);
    }
    if pattern.None? {
      return Failure(InvalidPattern);
    }
    var matches: seq<GrepMatch> := [];
    var byteOffset, i := 0, 0;
    while byteOffset < |text|
      invariant byteOffset <= |text|
      invariant byteOffset < |text| ==> StartsLine(text, byteOffset) && i == Newlines(text[..byteOffset])
      invariant FindsAll(text, pattern.value, matches, byteOffset)
    {
      var rawLine := RawLine(text, byteOffset);
      var line := WithoutLast(WithoutLast(rawLine, NEWLINE), RETURN);
      ghost var before := matches;
      if pattern.value(line) {
        matches := matches + [GrepMatch(i + 1, byteOffset, line)];
      }
      FindsInNextLine(text, pattern.value, before, byteOffset, i, matches);
      byteOffset := byteOffset + |rawLine|;
      i := i + 1;
    }
    return Success(GrepResult(matches, |matches|));
  }

  /** The line that starts at `p`, with its newline if it has one. */
  function RawLine(text: Bytes, p: nat): (r: Bytes)
    requires p < |text|
    ensures r != []
  {
    var end := NextNewline(text, p);
    if end < |text| then text[p..end + 1] else text[p..]
  }

  lemma RawLineIsLine(text: Bytes, p: nat)
    requires StartsLine(text, p)
    ensures var next := p + |RawLine(text, p)|;
            && next <= |text|
            && LineAt(text, p) == WithoutLast(WithoutLast(RawLine(text, p), NEWLINE), RETURN)
            && (forall q | p < q < next :: !StartsLine(text, q))
            && (next < |text| ==> StartsLine(text, next) && Newlines(text[..next]) == Newlines(text[..p]) + 1)
  {
    var end, raw := NextNewline(text, p), RawLine(text, p);
    if end < |text| {
      assert raw[..|raw| - 1] == text[p..end] && raw[|raw| - 1] == NEWLINE;
      NewlinesBetween(text, p, end);
      assert text[..end + 1][..end] == text[..end];
    } else {
      assert text[p..end] == raw && raw[|raw| - 1] == text[|text| - 1];
    }
  }

  lemma {:induction false} NewlinesBetween(text: Bytes, p: nat, end: nat)
    requires p <= end <= |text| && forall i | p <= i < end :: text[i] != NEWLINE
    ensures Newlines(text[..end]) == Newlines(text[..p])
  {
    if p < end {
      NewlinesBetween(text, p, end - 1);
      assert text[..end][..end - 1] == text[..end - 1];
    }
  }

  lemma FindsOneMore(
    text: Bytes, isMatch: Bytes -> bool, matches: seq<GrepMatch>, p: nat, next: nat, more: seq<GrepMatch>)
    requires FindsAll(text, isMatch, matches, p) && StartsLine(text, p) && p < next
    requires forall q | p < q < next :: !StartsLine(text, q)
    requires var found := GrepMatch(Newlines(text[..p]) + 1, p, LineAt(text, p));
             more == matches + if isMatch(LineAt(text, p)) then [found] else []
    ensures FindsAll(text, isMatch, more, next)
  {
    forall q: nat | q < next && StartsLine(text, q) && isMatch(LineAt(text, q))
      ensures HasMatchAt(more, q)
    {
      if q < p {
        StillHasMatchAt(matches, more[|matches|..], q);
        assert matches + more[|matches|..] == more;
      } else {
        assert more[|matches|].byteOffset == q;
      }
    }
  }

  lemma StillHasMatchAt(matches: seq<GrepMatch>, added: seq<GrepMatch>, q: nat)
    requires HasMatchAt(matches, q)
    ensures HasMatchAt(matches + added, q)
  {
    var i :| 0 <= i < |matches| && matches[i].byteOffset == q;
    assert (matches + added)[i] == matches[i];
  }

  /** One round of the search. */
  lemma FindsInNextLine(
    text: Bytes, isMatch: Bytes -> bool, matches: seq<GrepMatch>, p: nat, i: nat, more: seq<GrepMatch>)
    requires FindsAll(text, isMatch, matches, p) && StartsLine(text, p) && i == Newlines(text[..p])
    requires var line := WithoutLast(WithoutLast(RawLine(text, p), NEWLINE), RETURN);
             more == matches + if isMatch(line) then [GrepMatch(i + 1, p, line)] else []
    ensures var next := p + |RawLine(text, p)|;
            && next <= |text| && FindsAll(text, isMatch, more, next)
            && (next < |text| ==> StartsLine(text, next) && i + 1 == Newlines(text[..next]))
  {
    RawLineIsLine(text, p);
    FindsOneMore(text, isMatch, matches, p, p + |RawLine(text, p)|, more);
  }

  // ----- windows -----

  const USIZE_MAX := 0xFFFF_FFFF_FFFF_FFFF

  function Min(a: nat, b: nat): nat {
    if a < b then a else b
  }

  function SaturatingAdd(a: nat, b: nat): nat {
    Min(a + b, USIZE_MAX)
  }

  function WindowStart(total: nat, offset: Option<nat>): nat {
    Min(if offset.Some? then offset.value else 0, total)
  }

  function WindowEnd(total: nat, offset: Option<nat>, limit: Option<nat>): (r: nat)
    requires total <= USIZE_MAX
    ensures WindowStart(total, offset) <= r <= total
  {
    if limit.Some? then Min(SaturatingAdd(WindowStart(total, offset), limit.value), total) else total
  }

  function Window(bytes: Bytes, offset: Option<nat>, limit: Option<nat>): Bytes
    requires |bytes| <= USIZE_MAX
  {
    bytes[WindowStart(|bytes|, offset)..WindowEnd(|bytes|, offset, limit)]
  }

  predicate HasMore(bytes: Bytes, offset: Option<nat>, limit: Option<nat>)
    requires |bytes| <= USIZE_MAX
  {
    WindowEnd(|bytes|, offset, limit) < |bytes|
  }

  datatype Response =
    | Matches(found: GrepResult)
    | WholeFile(bytes: Bytes)
    | Page(offset: nat, length: nat, totalBytes: nat, hasMore: bool, content: Encoded)

  /** UTF-8 text as it is, anything else in base64; both are taken to stand for the bytes themselves. */
  datatype Encoded = Text(bytes: Bytes) | Base64(bytes: Bytes)

  function EncodeContent(bytes: Bytes, isUtf8: Bytes -> bool): Encoded {
    if isUtf8(bytes) then Text(bytes) else Base64(bytes)
  }

  /** The step that a successful read leaves in the log of the current checkpoint. */
  function ReadStep(description: string): Op {
    Record(None, Step("session_read_file", description))
  }

  /** The answer for a file that is there. */
  method ReadBytes(bytes: Bytes, offset: Option<nat>, limit: Option<nat>, search: Option<Option<Bytes -> bool>>,
      isUtf8: Bytes -> bool)
    returns (r: Result<Response>)
    requires |bytes| <= USIZE_MAX
    ensures Answers(bytes, offset, limit, search, isUtf8, r)
    ensures search.Some? && offset.None? && limit.None? && r.Success? ==>
              && search.value.Some? && r.value.Matches?
              && FindsAll(bytes, search.value.value, r.value.found.matches, |bytes|)
    ensures r.Failure? ==> r.error.BinaryContent? || r.error.InvalidPattern?
  {
    var content := Window(bytes, offset, limit);
    DefaultWindows(bytes, 0, None);
    if search.Some? {
      var grep := Grep(content, isUtf8, search.value);
      if grep.Failure? {
        return Failure(grep.error);
      }
      return Success(Matches(grep.value));
    } else if offset.None? && limit.None? {
      return Success(WholeFile(bytes));
    } else {
      return Success(Page(WindowStart(|bytes|, offset), |content|, |bytes|, HasMore(bytes, offset, limit),
                          EncodeContent(content, isUtf8)));
    }
  }

  method ReadFile(session: Session, path: string, offset: Option<nat>, limit: Option<nat>,
      pattern: Option<string>, isUtf8: Bytes -> bool, compile: string -> Option<Bytes -> bool>, description: string)
    returns (r: Result<Response>)
    requires session.Valid()
    requires var files := session.Hist().Current().files;
             forall key | key in files :: |files[key].bytes| <= USIZE_MAX
    modifies session`checkpoints
    ensures session.Valid()
    ensures r == Failure(FileNotFound(path)) <==> path !in old(session.View().Current().files)
    ensures r.Failure? ==> session.View() == old(session.View())
    ensures r.Success? ==>
              Edited(session.limits, old(session.View()), ReadStep(description), session.View(), None)
    ensures r.Success? ==>
              session.View().Current()
              == old(session.View()).Current().(
                   steps := old(session.View()).Current().steps + [Step("session_read_file", description)])
    ensures path in old(session.View().Current().files) ==>
              var bytes := old(session.View().Current().files)[path];
              && |bytes| <= USIZE_MAX
              && Answers(bytes, offset, limit, Compiled(pattern, compile), isUtf8, r)
              && (pattern.Some? && offset.None? && limit.None? && r.Success? ==>
                    && compile(pattern.value).Some? && r.value.Matches?
                    && FindsAll(bytes, compile(pattern.value).value, r.value.found.matches, |bytes|))
  {
    var files := session.checkpoints[session.checkpointIdx].files;
    if path !in files {
      return Failure(FileNotFound(path));
    }
    var bytes := files[path].bytes;
    assert |session.Hist().Current().files[path].bytes| <= USIZE_MAX;
    assert bytes == session.View().Current().files[path];
    r := ReadBytes(bytes, offset, limit, Compiled(pattern, compile), isUtf8);
    if r.Success? {
      RecordEffect(session.limits, session.View(), None, Step("session_read_file", description));
      session.RecordStep(None, Step("session_read_file", description));
    }
  }

  function Compiled(pattern: Option<string>, compile: string -> Option<Bytes -> bool>): Option<Option<Bytes -> bool>> {
    match pattern
    case None => None
    case Some(text) => Some(compile(text))
  }

  /** What a read of an existing file answers; `search` is the compiled pattern, if one was given. */
  ghost predicate Answers(bytes: Bytes, offset: Option<nat>, limit: Option<nat>, search: Option<Option<Bytes -> bool>>,
      isUtf8: Bytes -> bool, r: Result<Response>)
    requires |bytes| <= USIZE_MAX
  {
    var content := Window(bytes, offset, limit);
    match search
    case None =>
      r == Success(
        if offset.None? && limit.None? then WholeFile(bytes)
        else
          Page(WindowStart(|bytes|, offset), |content|, |bytes|, HasMore(bytes, offset, limit),
               if isUtf8(content) then Text(content) else Base64(content)))
    case Some(None) => r == Failure(if isUtf8(content) then InvalidPattern else BinaryContent)
    case Some(Some(isMatch)) =>
      if !isUtf8(content) then r == Failure(BinaryContent)
      else
        && r.Success? && r.value.Matches?
        && FindsAll(content, isMatch, r.value.found.matches, |content|)
        && r.value.found.totalMatches == |r.value.found.matches|
  }

  // ----- what a window shows -----

  /** Without offset and limit the window is the file; a missing offset is the start, a missing limit the rest. */
  lemma DefaultWindows(bytes: Bytes, at: nat, limit: Option<nat>)
    requires |bytes| <= USIZE_MAX
    ensures Window(bytes, None, None) == bytes && !HasMore(bytes, None, None)
    ensures Window(bytes, None, limit) == Window(bytes, Some(0), limit)
    ensures HasMore(bytes, None, limit) <==> HasMore(bytes, Some(0), limit)
    ensures at <= |bytes| ==> Window(bytes, Some(at), None) == bytes[at..]
    ensures at >= |bytes| ==> Window(bytes, Some(at), limit) == []
    ensures !HasMore(bytes, Some(at), None)
  {
  }

  /** The bytes of a window stand in the file from the window's start on. */
  lemma WindowIsInFile(bytes: Bytes, offset: Option<nat>, limit: Option<nat>)
    requires |bytes| <= USIZE_MAX
    ensures var start, content := WindowStart(|bytes|, offset), Window(bytes, offset, limit);
            && start + |content| <= |bytes| && bytes[start..start + |content|] == content
            && (limit.Some? ==> |content| <= limit.value)
            && (HasMore(bytes, offset, limit) <==> start + |content| < |bytes|)
  {
  }

  // ----- paging -----

  /** Since a file's length is itself a machine word, saturation never shortens a page. */
  lemma PageIsExact(bytes: Bytes, at: nat, limit: nat)
    requires |bytes| <= USIZE_MAX
    ensures at < |bytes| ==> |Window(bytes, Some(at), Some(limit))| == Min(limit, |bytes| - at)
    ensures HasMore(bytes, Some(at), Some(limit)) <==> at + limit < |bytes|
  {
  }

  /** What a client has read once it has followed `has_more` to the end, each page starting where the last ended. */
  function ReadOn(bytes: Bytes, at: nat, limit: nat): Bytes
    requires |bytes| <= USIZE_MAX && limit >= 1
    decreases |bytes| - at
  {
    var page := Window(bytes, Some(at), Some(limit));
    if HasMore(bytes, Some(at), Some(limit)) then page + ReadOn(bytes, at + |page|, limit) else page
  }

  /** Following `has_more` with any limit of at least one ends, and what was read is the rest of the file. */
  lemma {:induction false} PagesAreTheFile(bytes: Bytes, at: nat, limit: nat)
    requires |bytes| <= USIZE_MAX && limit >= 1 && at <= |bytes|
    ensures ReadOn(bytes, at, limit) == bytes[at..]
    decreases |bytes| - at
  {
    if HasMore(bytes, Some(at), Some(limit)) {
      PagesAreTheFile(bytes, at + limit, limit);
      assert bytes[at..] == bytes[at..at + limit] + bytes[at + limit..];
    }
  }

  /** A limit of zero is the one that leads nowhere: more is announced, and the next offset is the same. */
  lemma OnlyZeroStalls(bytes: Bytes, at: nat, limit: nat)
    requires |bytes| <= USIZE_MAX && HasMore(bytes, Some(at), Some(limit))
    ensures Window(bytes, Some(at), Some(limit)) == [] <==> limit == 0
  {
  }

  // ----- from a match back to the file -----

  /** The bytes at the window's start plus a match's offset begin with its line, so a follow-up read finds it. */
  lemma MatchIsInFile(bytes: Bytes, offset: Option<nat>, limit: Option<nat>, found: GrepMatch)
    requires |bytes| <= USIZE_MAX && Reported(Window(bytes, offset, limit), found)
    ensures var at := WindowStart(|bytes|, offset) + found.byteOffset;
            && at + |found.line| <= |bytes|
            && bytes[at..at + |found.line|] == found.line
            && Window(bytes, Some(at), Some(|found.line|)) == found.line
  {
    var start, end := WindowStart(|bytes|, offset), WindowEnd(|bytes|, offset, limit);
    var window, p := Window(bytes, offset, limit), found.byteOffset;
    LineIsPrefix(window, p);
    SliceOfSlice(bytes, start, end, p, p + |found.line|);
    WindowIs(bytes, start + p, |found.line|);
  }

  lemma WindowIs(bytes: Bytes, at: nat, limit: nat)
    requires |bytes| <= USIZE_MAX && at + limit <= |bytes|
    ensures Window(bytes, Some(at), Some(limit)) == bytes[at..at + limit]
  {
  }

  lemma LineIsPrefix(text: Bytes, p: nat)
    requires p <= |text|
    ensures p + |LineAt(text, p)| <= |text| && text[p..p + |LineAt(text, p)|] == LineAt(text, p)
  {
    var raw, line := text[p..NextNewline(text, p)], LineAt(text, p);
    assert raw[..|line|] == line;
    assert forall i | 0 <= i < |line| :: line[i] == raw[i] == text[p + i];
  }

  lemma SliceOfSlice(bytes: Bytes, start: nat, end: nat, p: nat, q: nat)
    requires start <= end <= |bytes| && p <= q <= end - start
    ensures bytes[start..end][p..q] == bytes[start + p..start + q]
  {
    var a, b := bytes[start..end][p..q], bytes[start + p..start + q];
    assert |a| == |b|;
    assert forall i | 0 <= i < |a| :: a[i] == bytes[start..end][p + i] == bytes[start + (p + i)] == b[i];
  }

  /** A newline, or the start of the file. */
  predicate OpensLine(bytes: Bytes, p: nat) {
    p <= |bytes| && (p == 0 || bytes[p - 1] == NEWLINE)
  }

  /**
   A match inside a window is a line of the file, numbered from the window's start, when the window opens
   a line and the line is not cut off by the window's end.
   */
  lemma MatchIsFileLine(bytes: Bytes, start: nat, end: nat, found: GrepMatch)
    requires start <= end <= |bytes| && Reported(bytes[start..end], found)
    requires found.byteOffset > 0 || OpensLine(bytes, start)
    requires NextNewline(bytes, start + found.byteOffset) <= end
    ensures Reported(bytes, InFile(found, start, Newlines(bytes[..start])))
  {
    var p := found.byteOffset;
    SameLine(bytes, start, end, p);
    SameNumber(bytes, start, end, p);
    SameStart(bytes, start, end, p);
  }

  /** A match with its offset and number counted from the start of the file. */
  function InFile(found: GrepMatch, start: nat, lines: nat): GrepMatch {
    GrepMatch(lines + found.lineNumber, start + found.byteOffset, found.line)
  }

  lemma SameStart(bytes: Bytes, start: nat, end: nat, p: nat)
    requires start <= end <= |bytes| && StartsLine(bytes[start..end], p)
    requires p > 0 || OpensLine(bytes, start)
    ensures StartsLine(bytes, start + p)
  {
    assert p > 0 ==> bytes[start..end][p - 1] == bytes[start + p - 1];
  }

  lemma SameLine(bytes: Bytes, start: nat, end: nat, p: nat)
    requires start <= end <= |bytes| && p <= end - start && NextNewline(bytes, start + p) <= end
    ensures LineAt(bytes[start..end], p) == LineAt(bytes, start + p)
  {
    SameNewline(bytes, start, end, p);
    SliceOfSlice(bytes, start, end, p, NextNewline(bytes[start..end], p));
  }

  lemma SameNumber(bytes: Bytes, start: nat, end: nat, p: nat)
    requires start <= end <= |bytes| && p <= end - start
    ensures Newlines(bytes[..start + p]) == Newlines(bytes[..start]) + Newlines(bytes[start..end][..p])
  {
    NewlinesAppend(bytes[..start], bytes[start..end][..p]);
    assert bytes[..start + p] == bytes[..start] + bytes[start..end][..p];
  }

  lemma SameNewline(bytes: Bytes, start: nat, end: nat, p: nat)
    requires start <= end <= |bytes| && p <= end - start
    requires NextNewline(bytes, start + p) <= end
    ensures NextNewline(bytes[start..end], p) == NextNewline(bytes, start + p) - start
  {
    var window, q := bytes[start..end], NextNewline(bytes[start..end], p);
    assert forall i | 0 <= i < |window| :: window[i] == bytes[start + i];
    assert q < |window| ==> bytes[start + q] == NEWLINE;
  }

  lemma {:induction false} NewlinesAppend(a: Bytes, b: Bytes)
    ensures Newlines(a + b) == Newlines(a) + Newlines(b)
  {
    if b == [] {
      assert a + b == a;
    } else {
      assert (a + b)[..|a + b| - 1] == a + b[..|b| - 1];
      NewlinesAppend(a, b[..|b| - 1]);
    }
  }
}
