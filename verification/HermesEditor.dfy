/** The editor of the Hermes configuration file: its lines, changed in place. */
module HermesEditor {
  import opened Wrappers
  import opened HermesText
  import HermesMcp
  import opened HermesToolsets

  class HermesConfig {
    var lines: seq<Line>
    /** How the editor recognises an agent block and its list of disabled toolsets. */
    const marks: Marks

    constructor (lines: seq<Line>)
      ensures this.lines == lines && marks == HERMES
    {
      this.lines := lines;
      this.marks := HERMES;
    }

    predicate HasMcpEntry()
      reads this
    {
      HermesMcp.HasEntry(lines)
    }

    method MergeMcpEntry(url: string) returns (changed: bool)
      modifies this
      ensures changed <==> !HermesMcp.HasEntry(old(lines))
      ensures lines == HermesMcp.Merged(old(lines), HermesMcp.Entry(url))
    {
      if HasMcpEntry() {
        return false;
      }
      var entry := HermesMcp.Entry(url);
      var pos := First(lines, 0, HermesMcp.IsServers);
      if pos < |lines| {
        for i := 0 to |entry|
          invariant lines == old(lines)[..pos + 1] + entry[..i] + old(lines)[pos + 1..]
        {
          lines := lines[..pos + 1 + i] + [entry[i]] + lines[pos + 1 + i..];
        }
        assert entry[..|entry|] == entry;
      } else {
        if lines != [] {
          lines := lines + [""];
        }
        lines := lines + [HermesMcp.SERVERS];
        lines := lines + entry;
      }
      return true;
    }

    method RemoveMcpEntry() returns (changed: bool)
      modifies this
      ensures changed <==> HermesMcp.HasEntry(old(lines))
      ensures lines == HermesMcp.Stripped(old(lines), false)
    {
      if !HasMcpEntry() {
        HermesMcp.StrippedWithoutEntry(lines);
        return false;
      }
      var out: seq<Line> := [];
      var skipping := false;
      for i := 0 to |lines|
        invariant lines == old(lines)
        invariant out + HermesMcp.Stripped(lines[i..], skipping) == HermesMcp.Stripped(lines, false)
      {
        var line := lines[i];
        assert lines[i..][1..] == lines[i + 1..];
        if HermesMcp.IsDrun(line) {
          skipping := true;
          continue;
        }
        if skipping {
          if HermesMcp.IsInside(line) {
            continue;
          }
          skipping := false;
        }
        out := out + [line];
      }
      lines := out;
      return true;
    }

    /** The two block finders and the list range, one after the other. */
    method Locate() returns (place: Place)
      ensures place == Find(marks, lines)
    {
      var start := First(lines, 0, marks.isAgent);
      if start == |lines| {
        return NoAgent;
      }
      var end := First(lines, start + 1, marks.endsBlock);
      var key := First(lines[..end], start + 1, marks.isKey);
      if key == end {
        return NoKey(start);
      }
      return List(key, First(lines, key + 1, marks.endsList));
    }

    method InsertItems(at: nat, names: seq<string>)
      requires at <= |lines|
      modifies this
      ensures lines == Spliced(old(lines), at, Items(marks, names))
    {
      var insertAt := at;
      assert Spliced(lines, at, Items(marks, names[..0])) == lines;
      for i := 0 to |names|
        invariant insertAt == at + i
        invariant lines == Spliced(old(lines), at, Items(marks, names[..i]))
      {
        OneMoreItem(marks, names[..i], names[i]);
        assert names[..i + 1] == names[..i] + [names[i]];
        InsertedNext(old(lines), at, Items(marks, names[..i]), Item(marks, names[i]));
        lines := Spliced(lines, insertAt, [Item(marks, names[i])]);
        insertAt := insertAt + 1;
      }
      assert names[..|names|] == names;
    }

    /** Inserts the names the list does not have yet, in their order, at its end. */
    method InsertMissing(end: nat, existing: seq<Line>, names: seq<string>) returns (changed: bool)
      requires end <= |lines|
      modifies this
      ensures lines == Spliced(old(lines), end, Items(marks, Missing(marks, existing, names)))
      ensures changed <==> Missing(marks, existing, names) != []
    {
      var insertAt := end;
      changed := false;
      assert Spliced(lines, end, Items(marks, [])) == lines && names[..0] == [];
      for i := 0 to |names|
        invariant insertAt == end + |Missing(marks, existing, names[..i])|
        invariant lines == Spliced(old(lines), end, Items(marks, Missing(marks, existing, names[..i])))
        invariant changed <==> Missing(marks, existing, names[..i]) != []
      {
        var missing := Missing(marks, existing, names[..i]);
        OneMoreMissing(marks, existing, names[..i], names[i]);
        assert names[..i + 1] == names[..i] + [names[i]];
        if !Lists(marks, existing, names[i]) {
          OneMoreItem(marks, missing, names[i]);
          InsertedNext(old(lines), end, Items(marks, missing), Item(marks, names[i]));
          lines := Spliced(lines, insertAt, [Item(marks, names[i])]);
          insertAt := insertAt + 1;
          changed := true;
        } else {
          assert missing + [] == missing;
        }
      }
      assert names[..|names|] == names;
    }

    method MergeDisabledToolsets(required: seq<string>) returns (changed: bool)
      modifies this
      ensures lines == Merged(marks, old(lines), required)
      ensures changed <==> Adds(marks, old(lines), required)
    {
      var place := Locate();
      match place
      case NoAgent =>
        PushAgent(required);
        return true;
      case NoKey(agent) =>
        InsertList(agent + 1, required);
        return true;
      case List(key, end) =>
        changed := InsertMissing(end, lines[key + 1..end], required);
    }

    method InsertList(at: nat, required: seq<string>)
      requires at <= |lines|
      modifies this
      ensures lines == Spliced(old(lines), at, NewList(marks, required))
    {
      InsertedBoth(lines, at, marks.key, Items(marks, required));
      lines := Spliced(lines, at, [marks.key]);
      InsertItems(at + 1, required);
    }

    /** Appends an agent block with the list, after a blank line if the file has any lines. */
    method PushAgent(required: seq<string>)
      modifies this
      ensures lines == old(lines) + Gap(old(lines)) + [marks.agent] + NewList(marks, required)
    {
      if lines != [] {
        lines := lines + [""];
      }
      lines := lines + [marks.agent];
      lines := lines + [marks.key];
      PushedList(old(lines) + Gap(old(lines)) + [marks.agent], marks, required);
      PushItems(required);
    }

    method PushItems(required: seq<string>)
      modifies this
      ensures lines == old(lines) + Items(marks, required)
    {
      ghost var before := lines;
      for i := 0 to |required|
        invariant lines == before + Items(marks, required[..i])
      {
        OneMoreItem(marks, required[..i], required[i]);
        assert required[..i + 1] == required[..i] + [required[i]];
        lines := lines + [Item(marks, required[i])];
      }
      assert required[..|required|] == required;
    }

    method RemoveDisabledToolsets(names: seq<string>) returns (changed: bool)
      modifies this
      ensures lines == Cleared(marks, old(lines), names)
      ensures changed <==> |lines| < |old(lines)|
    {
      var place := Locate();
      match place
      case NoAgent =>
        return false;
      case NoKey(_) =>
        return false;
      case List(key, end) =>
        var remaining := Remaining(marks, lines[key + 1..end], names);
        if |remaining| == end - (key + 1) {
          return false;
        }
        RemainingSize(marks, lines[key + 1..end], names);
        lines := WithList(lines[..key], lines[key], remaining, lines[end..]);
        return true;
    }
  }

  method WithList(above: seq<Line>, key: Line, remaining: seq<Line>, below: seq<Line>) returns (out: seq<Line>)
    ensures out == above + (if remaining == [] then [] else [key] + remaining) + below
    ensures |out| <= |above| + 1 + |remaining| + |below|
  {
    out := above;
    if remaining != [] {
      out := out + [key];
      out := out + remaining;
      assert out == above + ([key] + remaining);
    }
    out := out + below;
  }

  lemma PushedList(lines: seq<Line>, marks: Marks, names: seq<string>)
    ensures lines + [marks.key] + Items(marks, names) == lines + NewList(marks, names)
  {
  }

  lemma InsertedNext(lines: seq<Line>, at: nat, more: seq<Line>, line: Line)
    requires at <= |lines|
    ensures Spliced(Spliced(lines, at, more), at + |more|, [line]) == Spliced(lines, at, more + [line])
  {
    var longer := Spliced(lines, at, more);
    assert longer[..at + |more|] == lines[..at] + more && longer[at + |more|..] == lines[at..];
  }

  lemma InsertedBoth(lines: seq<Line>, at: nat, line: Line, more: seq<Line>)
    requires at <= |lines|
    ensures Spliced(Spliced(lines, at, [line]), at + 1, more) == Spliced(lines, at, [line] + more)
  {
    var longer := Spliced(lines, at, [line]);
    assert longer[..at + 1] == lines[..at] + [line] && longer[at + 1..] == lines[at..];
  }
}
