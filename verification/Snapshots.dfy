/**
 The snapshot codec: a history whose file maps name blobs by index, with each allocation stored once.
 Byte-level encoding (JSON, zstd) is taken to be the identity.
 */
module Snapshots {
  import opened Wrappers
  import opened History
  import opened Store
  import opened Blobs
  import opened Interning
  import opened Sessions

  type IndexMap = map<string, nat>

  datatype Snapshot = Snapshot(history: History<IndexMap>, blobs: seq<Bytes>, details: Details) {
    ghost predicate InRange() {
      forall i, key | 0 <= i < |history.checkpoints| && key in history.checkpoints[i].files ::
        history.checkpoints[i].files[key] < |blobs|
    }
  }

  /** The numbering gives every allocation met so far its own index, and stores its bytes there. */
  ghost predicate Numbering(index: map<Blob, nat>, blobs: seq<Bytes>) {
    && (forall blob | blob in index :: index[blob] < |blobs| && blobs[index[blob]] == blob.bytes)
    && (forall a, b | a in index && b in index :: index[a] == index[b] ==> a == b)
    && |blobs| == |index|
  }

  ghost predicate Indexes(index: map<Blob, nat>, files: FileMap, numbers: IndexMap) {
    && numbers.Keys == files.Keys
    && forall key | key in files :: files[key] in index && numbers[key] == index[files[key]]
  }

  function WithFiles<F, G>(c: Checkpoint<F>, files: G): Checkpoint<G> {
    Checkpoint(c.id, c.stdout, c.stderr, files, c.name, c.command, c.exitCode, c.tool, c.description, c.steps)
  }

  /** `record` is `c` with its files numbered, everything else as it was. */
  ghost predicate Encodes(index: map<Blob, nat>, c: Checkpoint<FileMap>, record: Checkpoint<IndexMap>) {
    Indexes(index, c.files, record.files) && record == WithFiles(c, record.files)
  }

  ghost predicate EncodesHistory(index: map<Blob, nat>, h: History<FileMap>, snapshot: Snapshot) {
    && Numbering(index, snapshot.blobs)
    && snapshot.history.head == h.head
    && |snapshot.history.checkpoints| == |h.checkpoints|
    && forall i | 0 <= i < |h.checkpoints| :: Encodes(index, h.checkpoints[i], snapshot.history.checkpoints[i])
  }

  function DecodedFiles(numbers: IndexMap, blobs: seq<Blob>): FileMap
    requires forall key | key in numbers :: numbers[key] < |blobs|
  {
    map key | key in numbers :: blobs[numbers[key]]
  }

  function Decoded(snapshot: Snapshot, blobs: seq<Blob>): (h: History<FileMap>)
    requires snapshot.InRange() && |blobs| == |snapshot.blobs|
    ensures h.head == snapshot.history.head && |h.checkpoints| == |snapshot.history.checkpoints|
    ensures forall i | 0 <= i < |h.checkpoints| ::
              h.checkpoints[i] == WithFiles(snapshot.history.checkpoints[i],
                                            DecodedFiles(snapshot.history.checkpoints[i].files, blobs))
  {
    var cs := snapshot.history.checkpoints;
    History(
      seq(|cs|, i requires 0 <= i < |cs| => WithFiles(cs[i], DecodedFiles(cs[i].files, blobs))),
      snapshot.history.head)
  }

  /** One fresh allocation for each stored blob. */
  ghost predicate Allocated(blobs: seq<Blob>, texts: seq<Bytes>) {
    && |blobs| == |texts|
    && (forall i | 0 <= i < |blobs| :: blobs[i].bytes == texts[i])
    && forall i, j | 0 <= i < j < |blobs| :: blobs[i] != blobs[j]
  }

  /** Two files are one allocation in `b` exactly when they are one in `a`. */
  ghost predicate SameSharing(a: History<FileMap>, b: History<FileMap>) {
    && |a.checkpoints| == |b.checkpoints|
    && (forall i | 0 <= i < |a.checkpoints| :: a.checkpoints[i].files.Keys == b.checkpoints[i].files.Keys)
    && forall i, j, k, l |
         && 0 <= i < |a.checkpoints| && 0 <= j < |a.checkpoints|
         && k in a.checkpoints[i].files && l in a.checkpoints[j].files ::
         a.checkpoints[i].files[k] == a.checkpoints[j].files[l]
         <==> b.checkpoints[i].files[k] == b.checkpoints[j].files[l]
  }

  lemma EncodedIsInRange(index: map<Blob, nat>, h: History<FileMap>, snapshot: Snapshot)
    requires EncodesHistory(index, h, snapshot)
    ensures snapshot.InRange()
  {
    forall i, key | 0 <= i < |h.checkpoints| && key in snapshot.history.checkpoints[i].files
      ensures snapshot.history.checkpoints[i].files[key] < |snapshot.blobs|
    {
      assert Encodes(index, h.checkpoints[i], snapshot.history.checkpoints[i]);
    }
  }

  /** Decoding an encoded history restores every checkpoint and exactly the sharing there was. */
  lemma RoundTrip(index: map<Blob, nat>, h: History<FileMap>, snapshot: Snapshot, blobs: seq<Blob>)
    requires EncodesHistory(index, h, snapshot) && Allocated(blobs, snapshot.blobs)
    ensures snapshot.InRange()
    ensures Plain(Decoded(snapshot, blobs)) == Plain(h)
    ensures SameSharing(h, Decoded(snapshot, blobs))
  {
    EncodedIsInRange(index, h, snapshot);
    var d := Decoded(snapshot, blobs);
    forall i | 0 <= i < |h.checkpoints|
      ensures d.checkpoints[i].files.Keys == h.checkpoints[i].files.Keys
      ensures PlainCheckpoint(d.checkpoints[i]) == PlainCheckpoint(h.checkpoints[i])
    {
      DecodesFile(index, h, snapshot, blobs, i);
    }
    assert Plain(d).checkpoints == Plain(h).checkpoints;
    forall i, j, k, l | 0 <= i < |h.checkpoints| && 0 <= j < |h.checkpoints|
                        && k in h.checkpoints[i].files && l in h.checkpoints[j].files
      ensures h.checkpoints[i].files[k] == h.checkpoints[j].files[l]
              <==> d.checkpoints[i].files[k] == d.checkpoints[j].files[l]
    {
      DecodesFile(index, h, snapshot, blobs, i);
      DecodesFile(index, h, snapshot, blobs, j);
      SameBlobOrNot(index, snapshot.blobs, blobs, h.checkpoints[i].files[k], h.checkpoints[j].files[l],
                    d.checkpoints[i].files[k], d.checkpoints[j].files[l]);
    }
  }

  lemma DecodesFile(index: map<Blob, nat>, h: History<FileMap>, snapshot: Snapshot, blobs: seq<Blob>, i: nat)
    requires EncodesHistory(index, h, snapshot) && Allocated(blobs, snapshot.blobs) && snapshot.InRange()
    requires i < |h.checkpoints|
    ensures var (c, d) := (h.checkpoints[i], Decoded(snapshot, blobs).checkpoints[i]);
            && d == WithFiles(c, d.files)
            && d.files.Keys == c.files.Keys
            && BytesOf(d.files) == BytesOf(c.files)
            && forall key | key in c.files :: StoredAs(index, blobs, c.files[key], d.files[key])
  {
    assert Encodes(index, h.checkpoints[i], snapshot.history.checkpoints[i]);
    var c, record := h.checkpoints[i], snapshot.history.checkpoints[i];
    DecodesFiles(index, snapshot.blobs, blobs, c.files, record.files);
  }

  ghost predicate StoredAs(index: map<Blob, nat>, blobs: seq<Blob>, blob: Blob, stored: Blob) {
    blob in index && index[blob] < |blobs| && stored == blobs[index[blob]]
  }

  lemma DecodesFiles(index: map<Blob, nat>, texts: seq<Bytes>, blobs: seq<Blob>, files: FileMap, numbers: IndexMap)
    requires Numbering(index, texts) && Allocated(blobs, texts) && Indexes(index, files, numbers)
    ensures forall key | key in numbers :: numbers[key] < |blobs|
    ensures var d := DecodedFiles(numbers, blobs);
            && d.Keys == files.Keys
            && BytesOf(d) == BytesOf(files)
            && forall key | key in files :: StoredAs(index, blobs, files[key], d[key])
  {
  }

  lemma SameBlobOrNot(index: map<Blob, nat>, texts: seq<Bytes>, blobs: seq<Blob>, a: Blob, b: Blob, c: Blob, d: Blob)
    requires Numbering(index, texts) && Allocated(blobs, texts)
    requires StoredAs(index, blobs, a, c) && StoredAs(index, blobs, b, d)
    ensures a == b <==> c == d
  {
  }

  /** A restored history is as well interned as the original. */
  lemma RestoredIsInterned(hash: Bytes -> int, table: Table, h: History<FileMap>, d: History<FileMap>, restored: Table)
    requires Canonical(hash, table, HistoryBlobs(h.checkpoints)) && Rebuilt(hash, restored, HistoryBlobs(d.checkpoints))
    requires Plain(d) == Plain(h) && SameSharing(h, d)
    ensures Canonical(hash, restored, HistoryBlobs(d.checkpoints))
  {
    forall blob | blob in HistoryBlobs(d.checkpoints)
      ensures restored[hash(blob.bytes)] == blob
    {
      var key := hash(blob.bytes);
      assert key in restored;
      OriginalsAgree(hash, table, h, d, blob, restored[key]);
    }
  }

  lemma OriginalsAgree(hash: Bytes -> int, table: Table, h: History<FileMap>, d: History<FileMap>, x: Blob, y: Blob)
    requires Canonical(hash, table, HistoryBlobs(h.checkpoints))
    requires Plain(d) == Plain(h) && SameSharing(h, d)
    requires x in HistoryBlobs(d.checkpoints) && y in HistoryBlobs(d.checkpoints) && hash(x.bytes) == hash(y.bytes)
    ensures x == y
  {
    var i, k :| 0 <= i < |d.checkpoints| && k in d.checkpoints[i].files && d.checkpoints[i].files[k] == x;
    var j, l :| 0 <= j < |d.checkpoints| && l in d.checkpoints[j].files && d.checkpoints[j].files[l] == y;
    SameBytesAt(h, d, i, k);
    SameBytesAt(h, d, j, l);
    assert h.checkpoints[i].files[k] in HistoryBlobs(h.checkpoints);
    assert h.checkpoints[j].files[l] in HistoryBlobs(h.checkpoints);
  }

  lemma SameBytesAt(h: History<FileMap>, d: History<FileMap>, i: nat, key: string)
    requires Plain(d) == Plain(h) && SameSharing(h, d) && i < |d.checkpoints| && key in d.checkpoints[i].files
    ensures h.checkpoints[i].files[key].bytes == d.checkpoints[i].files[key].bytes
  {
    assert Plain(d).checkpoints[i].files[key] == Plain(h).checkpoints[i].files[key];
  }

  ghost predicate Extends(more: map<Blob, nat>, index: map<Blob, nat>) {
    forall blob | blob in index :: blob in more && more[blob] == index[blob]
  }

  lemma EncodesStill(index: map<Blob, nat>, more: map<Blob, nat>, c: Checkpoint<FileMap>, record: Checkpoint<IndexMap>)
    requires Encodes(index, c, record) && Extends(more, index)
    ensures Encodes(more, c, record)
  {
  }

  /** The number of an allocation, assigned at its first occurrence. */
  method NumberBlob(blob: Blob, index0: map<Blob, nat>, blobs0: seq<Bytes>)
    returns (number: nat, index: map<Blob, nat>, blobs: seq<Bytes>)
    requires Numbering(index0, blobs0)
    ensures Numbering(index, blobs) && Extends(index, index0) && index.Keys == index0.Keys + {blob}
    ensures blob in index && number == index[blob]
  {
    if blob in index0 {
      return index0[blob], index0, blobs0;
    }
    NumberingOneMore(index0, blobs0, blob);
    number, index, blobs := |blobs0|, index0[blob := |blobs0|], blobs0 + [blob.bytes];
  }

  /** Extends the numbering by the files of one checkpoint. */
  method NumberFiles(files: FileMap, index0: map<Blob, nat>, blobs0: seq<Bytes>)
    returns (numbers: IndexMap, index: map<Blob, nat>, blobs: seq<Bytes>)
    requires Numbering(index0, blobs0)
    ensures Numbering(index, blobs) && Extends(index, index0) && Indexes(index, files, numbers)
    ensures index.Keys == index0.Keys + files.Values
  {
    numbers, index, blobs := map[], index0, blobs0;
    var left := files.Keys;
    NothingNumbered(index0, blobs0, files);
    while left != {}
      invariant left <= files.Keys && NumberedSoFar(index0, index, blobs, files, left, numbers)
    {
      var key :| key in left;
      var number;
      ghost var before, blobsBefore := index, blobs;
      number, index, blobs := NumberBlob(files[key], index, blobs);
      NumberedOneMore(index0, before, blobsBefore, index, blobs, files, left, numbers, key);
      numbers := numbers[key := number];
      left := left - {key};
    }
    AllNumbered(index0, index, blobs, files, numbers);
  }

  ghost predicate NumberedSoFar(
    index0: map<Blob, nat>, index: map<Blob, nat>, blobs: seq<Bytes>, files: FileMap, left: set<string>,
    numbers: IndexMap)
  {
    && Numbering(index, blobs) && Extends(index, index0)
    && Indexes(index, files - left, numbers)
    && index.Keys <= index0.Keys + files.Values
  }

  lemma NumberedOneMore(
    index0: map<Blob, nat>, before: map<Blob, nat>, blobsBefore: seq<Bytes>, index: map<Blob, nat>, blobs: seq<Bytes>,
    files: FileMap, left: set<string>, numbers: IndexMap, key: string)
    requires left <= files.Keys && key in left && NumberedSoFar(index0, before, blobsBefore, files, left, numbers)
    requires Numbering(index, blobs) && Extends(index, before)
    requires files[key] in index && index.Keys == before.Keys + {files[key]}
    ensures NumberedSoFar(index0, index, blobs, files, left - {key}, numbers[key := index[files[key]]])
  {
    IndexesOneMore(before, index, files, left, numbers, key);
  }

  lemma NothingNumbered(index0: map<Blob, nat>, blobs0: seq<Bytes>, files: FileMap)
    requires Numbering(index0, blobs0)
    ensures NumberedSoFar(index0, index0, blobs0, files, files.Keys, map[])
  {
    assert files - files.Keys == map[];
  }

  lemma AllNumbered(
    index0: map<Blob, nat>, index: map<Blob, nat>, blobs: seq<Bytes>, files: FileMap, numbers: IndexMap)
    requires NumberedSoFar(index0, index, blobs, files, {}, numbers)
    ensures Numbering(index, blobs) && Extends(index, index0) && Indexes(index, files, numbers)
    ensures index.Keys == index0.Keys + files.Values
  {
    assert files - {} == files;
  }

  lemma IndexesOneMore(
    before: map<Blob, nat>, index: map<Blob, nat>, files: FileMap, left: set<string>, numbers: IndexMap, key: string)
    requires left <= files.Keys && key in left && files[key] in index
    requires Extends(index, before) && Indexes(before, files - left, numbers)
    ensures Indexes(index, files - (left - {key}), numbers[key := index[files[key]]])
  {
    assert (files - (left - {key})).Keys == (files - left).Keys + {key};
    assert forall k | k in files - left :: before[files[k]] == index[files[k]];
  }

  lemma NumberingOneMore(index: map<Blob, nat>, blobs: seq<Bytes>, blob: Blob)
    requires Numbering(index, blobs) && blob !in index
    ensures Numbering(index[blob := |blobs|], blobs + [blob.bytes])
  {
    assert index[blob := |blobs|].Keys == index.Keys + {blob};
    assert |index[blob := |blobs|].Keys| == |index.Keys| + 1;
  }

  /** The blobs of the first `n` checkpoints. */
  function Held(cs: seq<Checkpoint<FileMap>>, n: nat): set<Blob>
    requires n <= |cs|
  {
    if n == 0 then {} else Held(cs, n - 1) + cs[n - 1].files.Values
  }

  lemma {:induction false} HeldIsAll(cs: seq<Checkpoint<FileMap>>, n: nat)
    requires n <= |cs|
    ensures Held(cs, n) == HistoryBlobs(cs[..n])
  {
    if n > 0 {
      HeldIsAll(cs, n - 1);
      BlobsOneMore(cs, n - 1);
    }
  }

  /** The first checkpoints are encoded, and exactly their blobs are numbered. */
  ghost predicate EncodedUpTo(
    index: map<Blob, nat>, blobs: seq<Bytes>, cs: seq<Checkpoint<FileMap>>, records: seq<Checkpoint<IndexMap>>)
  {
    && |records| <= |cs|
    && Numbering(index, blobs)
    && index.Keys == Held(cs, |records|)
    && AllEncoded(index, cs, records)
  }

  ghost predicate AllEncoded(
    index: map<Blob, nat>, cs: seq<Checkpoint<FileMap>>, records: seq<Checkpoint<IndexMap>>)
  {
    |records| <= |cs| && forall j | 0 <= j < |records| :: Encodes(index, cs[j], records[j])
  }

  lemma AllEncodedStill(
    index: map<Blob, nat>, more: map<Blob, nat>, cs: seq<Checkpoint<FileMap>>, records: seq<Checkpoint<IndexMap>>)
    requires AllEncoded(index, cs, records) && Extends(more, index)
    ensures AllEncoded(more, cs, records)
  {
    forall j | 0 <= j < |records|
      ensures Encodes(more, cs[j], records[j])
    {
      EncodesStill(index, more, cs[j], records[j]);
    }
  }

  lemma AllEncodedPlus(
    index: map<Blob, nat>, cs: seq<Checkpoint<FileMap>>, records: seq<Checkpoint<IndexMap>>,
    record: Checkpoint<IndexMap>)
    requires AllEncoded(index, cs, records) && |records| < |cs| && Encodes(index, cs[|records|], record)
    ensures AllEncoded(index, cs, records + [record])
  {
  }

  lemma EncodedOneMore(
    before: map<Blob, nat>, blobs0: seq<Bytes>, index: map<Blob, nat>, blobs: seq<Bytes>,
    cs: seq<Checkpoint<FileMap>>, records: seq<Checkpoint<IndexMap>>, numbers: IndexMap)
    requires EncodedUpTo(before, blobs0, cs, records) && |records| < |cs|
    requires Numbering(index, blobs) && Extends(index, before)
    requires Indexes(index, cs[|records|].files, numbers) && index.Keys == before.Keys + cs[|records|].files.Values
    ensures EncodedUpTo(index, blobs, cs, records + [WithFiles(cs[|records|], numbers)])
  {
    AllEncodedStill(before, index, cs, records);
    AllEncodedPlus(index, cs, records, WithFiles(cs[|records|], numbers));
  }

  method FromSession(session: Session) returns (snapshot: Snapshot, index: map<Blob, nat>)
    ensures EncodesHistory(index, session.Hist(), snapshot) && snapshot.details == session.details
    ensures index.Keys == HistoryBlobs(session.checkpoints) && |snapshot.blobs| == |HistoryBlobs(session.checkpoints)|
  {
    var cs := session.checkpoints;
    var records: seq<Checkpoint<IndexMap>> := [];
    var blobs: seq<Bytes> := [];
    index := map[];
    for i := 0 to |cs|
      invariant |records| == i && EncodedUpTo(index, blobs, cs, records)
    {
      ghost var before, blobs0 := index, blobs;
      var numbers;
      numbers, index, blobs := NumberFiles(cs[i].files, index, blobs);
      EncodedOneMore(before, blobs0, index, blobs, cs, records, numbers);
      records := records + [WithFiles(cs[i], numbers)];
    }
    HeldIsAll(cs, |cs|);
    assert cs[..|cs|] == cs && |index| == |index.Keys|;
    snapshot := Snapshot(History(records, session.checkpointIdx), blobs, session.details);
  }

  method AllocateBlobs(texts: seq<Bytes>) returns (blobs: seq<Blob>)
    ensures Allocated(blobs, texts) && forall i | 0 <= i < |blobs| :: fresh(blobs[i])
  {
    blobs := [];
    for i := 0 to |texts|
      invariant |blobs| == i
      invariant forall j | 0 <= j < i :: fresh(blobs[j]) && blobs[j].bytes == texts[j]
      invariant forall j, k | 0 <= j < k < i :: blobs[j] != blobs[k]
    {
      var blob := new Blob(texts[i]);
      blobs := blobs + [blob];
    }
  }

  /** The details with every overlay dropped whose host path has disappeared. */
  function StillMounted(details: Details, onHost: string -> bool): Details {
    details.(overlays := map key | key in details.overlays && onHost(details.overlays[key]) :: details.overlays[key])
  }

  /** Label, parent and chat log are the same, and exactly the overlays whose host path still exists are there. */
  ghost predicate RestoresDetails(saved: Details, onHost: string -> bool, restored: Details) {
    && restored.name == saved.name && restored.parent == saved.parent && restored.chatLog == saved.chatLog
    && forall key, path ::
         (key in restored.overlays && restored.overlays[key] == path
          <==> key in saved.overlays && saved.overlays[key] == path && onHost(path))
  }

  /** Indexing a missing blob is a panic in the program, so the indices must be in range. */
  method Restore(snapshot: Snapshot, limits: Limits, hash: Bytes -> int, onHost: string -> bool)
    returns (session: Session, ghost blobs: seq<Blob>)
    requires snapshot.InRange()
    ensures Allocated(blobs, snapshot.blobs) && session.Hist() == Decoded(snapshot, blobs)
    ensures fresh(session) && fresh(session.interner) && session.workspace == null
    ensures session.limits == limits && session.interner.hash == hash
    ensures RestoresDetails(snapshot.details, onHost, session.details)
    ensures Rebuilt(hash, session.interner.table, HistoryBlobs(session.checkpoints))
  {
    var arcs := AllocateBlobs(snapshot.blobs);
    var decoded := Decoded(snapshot, arcs);
    var cs := decoded.checkpoints;
    var interner := new Interner(hash);
    interner.SeedCheckpoints(cs);
    session := new Session.FromParts(limits, cs, decoded.head, interner, StillMounted(snapshot.details, onHost));
    blobs := arcs;
  }

  /** Saving and restoring: the same history, the same sharing, within the same limits, as well interned. */
  method SaveAndRestore(session: Session, onHost: string -> bool) returns (restored: Session)
    requires session.Valid()
    ensures fresh(restored) && restored.Valid() && restored.Mirrored()
    ensures restored.View() == session.View()
    ensures RestoresDetails(session.details, onHost, restored.details)
    ensures SameSharing(session.Hist(), restored.Hist())
    ensures session.Interned() ==> restored.Interned()
  {
    var snapshot, index := FromSession(session);
    EncodedIsInRange(index, session.Hist(), snapshot);
    ghost var blobs;
    restored, blobs := Restore(snapshot, session.limits, session.interner.hash, onHost);
    RoundTrip(index, session.Hist(), snapshot, blobs);
    if session.Interned() {
      RestoredIsInterned(
        session.interner.hash, session.interner.table, session.Hist(), restored.Hist(), restored.interner.table);
    }
  }
}
