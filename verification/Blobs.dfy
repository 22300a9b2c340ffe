/**
 Shared file contents.  A `Blob` is an allocation: two blobs may hold equal bytes and still be
 different objects, which is what the interner, the disk mirror and the snapshot codec look at.
 */
module Blobs {
  import opened Wrappers
  import opened History
  import opened Store

  class Blob {
    const bytes: Bytes

    constructor (bytes: Bytes)
      ensures this.bytes == bytes
    {
      this.bytes := bytes;
    }
  }

  type FileMap = map<string, Blob>

  function BytesOf(files: FileMap): Contents {
    map key | key in files :: files[key].bytes
  }

  ghost function Texts(blobs: set<Blob>): set<Bytes> {
    set blob | blob in blobs :: blob.bytes
  }

  /** Every blob some checkpoint refers to. */
  function HistoryBlobs(checkpoints: seq<Checkpoint<FileMap>>): set<Blob> {
    set i, key | 0 <= i < |checkpoints| && key in checkpoints[i].files :: checkpoints[i].files[key]
  }

  lemma BlobsOneMore(checkpoints: seq<Checkpoint<FileMap>>, i: nat)
    requires i < |checkpoints|
    ensures HistoryBlobs(checkpoints[..i + 1]) == HistoryBlobs(checkpoints[..i]) + checkpoints[i].files.Values
  {
    var few, more := checkpoints[..i], checkpoints[..i + 1];
    assert more == few + [checkpoints[i]];
    forall blob | blob in HistoryBlobs(few)
      ensures blob in HistoryBlobs(more)
    {
      var j, key :| 0 <= j < |few| && key in few[j].files && few[j].files[key] == blob;
      assert more[j].files[key] == blob;
    }
    forall key | key in checkpoints[i].files
      ensures checkpoints[i].files[key] in HistoryBlobs(more)
    {
      assert more[i].files[key] == checkpoints[i].files[key];
    }
  }

  // ----- the plain view of a history of blobs -----

  function PlainCheckpoint(c: Checkpoint<FileMap>): Checkpoint<Contents> {
    Checkpoint(
      c.id, c.stdout, c.stderr, BytesOf(c.files), c.name, c.command, c.exitCode, c.tool, c.description, c.steps)
  }

  function Plain(h: History<FileMap>): (r: History<Contents>)
    ensures |r.checkpoints| == |h.checkpoints| && r.head == h.head
    ensures forall i | 0 <= i < |h.checkpoints| :: r.checkpoints[i] == PlainCheckpoint(h.checkpoints[i])
  {
    History(seq(|h.checkpoints|, i requires 0 <= i < |h.checkpoints| => PlainCheckpoint(h.checkpoints[i])), h.head)
  }

  lemma PlainPushed(h: History<FileMap>, files: FileMap, outcome: Outcome, tool: string, description: Option<string>)
    requires h.head < |h.checkpoints|
    ensures Plain(Pushed(h, files, outcome, tool, description))
         == Pushed(Plain(h), BytesOf(files), outcome, tool, description)
  {
  }

  lemma PlainCombined(range: seq<Checkpoint<FileMap>>, plain: seq<Checkpoint<Contents>>, id: nat, name: Option<string>)
    requires |range| == |plain| > 0
    requires forall i | 0 <= i < |range| :: plain[i] == PlainCheckpoint(range[i])
    ensures PlainCheckpoint(Combined(range, id, name)) == Combined(plain, id, name)
  {
    assert Stdouts(range) == Stdouts(plain);
    assert Stderrs(range) == Stderrs(plain);
    assert Commands(range) == Commands(plain);
    assert StepLists(range) == StepLists(plain);
  }

  lemma PlainSquashed(h: History<FileMap>, from: nat, to: nat, name: Option<string>)
    requires 1 <= from <= to < |h.checkpoints|
    ensures Plain(Squashed(h, from, to, name)) == Squashed(Plain(h), from, to, name)
  {
    PlainCombined(h.checkpoints[from..to + 1], Plain(h).checkpoints[from..to + 1], from, name);
    SquashedAt(h, from, to, name);
    SquashedAt(Plain(h), from, to, name);
    forall p | 0 <= p < |h.checkpoints| - (to - from) && p != from
      ensures Plain(Squashed(h, from, to, name)).checkpoints[p] == Squashed(Plain(h), from, to, name).checkpoints[p]
    {
      SquashedElsewhere(h, from, to, name, p);
      SquashedElsewhere(Plain(h), from, to, name, p);
    }
    assert Plain(Squashed(h, from, to, name)).checkpoints == Squashed(Plain(h), from, to, name).checkpoints;
  }

  lemma PlainDropped(h: History<FileMap>, from: nat, to: nat)
    requires 1 <= from <= to < |h.checkpoints| && (h.head < from || to < h.head)
    ensures Plain(Dropped(h, from, to)) == Dropped(Plain(h), from, to)
  {
    assert Plain(Dropped(h, from, to)).checkpoints == Dropped(Plain(h), from, to).checkpoints;
  }

  lemma PlainEdited(h: History<FileMap>, i: nat, text: string, step: Step)
    requires i < |h.checkpoints|
    ensures Plain(Labelled(h, i, text)) == Labelled(Plain(h), i, text)
    ensures Plain(StepRecorded(h, i, step)) == StepRecorded(Plain(h), i, step)
  {
    assert Plain(Labelled(h, i, text)).checkpoints == Labelled(Plain(h), i, text).checkpoints;
    assert Plain(StepRecorded(h, i, step)).checkpoints == StepRecorded(Plain(h), i, step).checkpoints;
  }

  // ----- transitions only ever keep blobs or add those of the new checkpoint -----

  lemma PushedBlobs(h: History<FileMap>, files: FileMap, outcome: Outcome, tool: string, description: Option<string>)
    requires h.head < |h.checkpoints|
    ensures HistoryBlobs(Pushed(h, files, outcome, tool, description).checkpoints)
         <= HistoryBlobs(h.checkpoints) + files.Values
  {
  }

  /** A push keeps the blobs up to the head, and adds those of the new checkpoint. */
  lemma PushedBlobsExactly(
    h: History<FileMap>, files: FileMap, outcome: Outcome, tool: string, description: Option<string>)
    requires h.head < |h.checkpoints|
    ensures HistoryBlobs(Pushed(h, files, outcome, tool, description).checkpoints)
         == HistoryBlobs(h.checkpoints[..h.head + 1]) + files.Values
  {
    var after := Pushed(h, files, outcome, tool, description).checkpoints;
    BlobsOneMore(after, h.head + 1);
    assert after[..h.head + 2] == after && after[..h.head + 1] == h.checkpoints[..h.head + 1];
  }

  lemma SquashedBlobs(h: History<FileMap>, from: nat, to: nat, name: Option<string>)
    requires 1 <= from <= to < |h.checkpoints|
    ensures HistoryBlobs(Squashed(h, from, to, name).checkpoints) <= HistoryBlobs(h.checkpoints)
  {
    SquashedAt(h, from, to, name);
    var s := Squashed(h, from, to, name).checkpoints;
    forall i, key | 0 <= i < |s| && key in s[i].files
      ensures s[i].files[key] in HistoryBlobs(h.checkpoints)
    {
      if i != from {
        SquashedElsewhere(h, from, to, name, i);
      }
      assert h.checkpoints[Origin(i, from, to)].files[key] == s[i].files[key];
    }
  }

  lemma DroppedBlobs(h: History<FileMap>, from: nat, to: nat)
    requires 1 <= from <= to < |h.checkpoints| && (h.head < from || to < h.head)
    ensures HistoryBlobs(Dropped(h, from, to).checkpoints) <= HistoryBlobs(h.checkpoints)
  {
    var d := Dropped(h, from, to).checkpoints;
    forall i, key | 0 <= i < |d| && key in d[i].files
      ensures d[i].files[key] in HistoryBlobs(h.checkpoints)
    {
      var p := if i < from then i else i + (to - from + 1);
      assert h.checkpoints[p].files[key] == d[i].files[key];
    }
  }
}
