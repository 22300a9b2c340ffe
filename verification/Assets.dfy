/**
 Fetching a page with its assets: collision-free file names, and the bookkeeping of what was fetched,
 skipped and failed.  The network's answers are inputs.
 */
module Assets {
  import opened Wrappers
  import opened Store
  import opened Effects
  import opened Sizes

  // ----- decimal numbers -----

  function Digit(d: nat): char
    requires d < 10
  {
    "0123456789"[d]
  }

  function Decimal(n: nat): (r: string)
    ensures r != ""
  {
    if n < 10 then [Digit(n)] else Decimal(n / 10) + [Digit(n % 10)]
  }

  lemma DecimalLength(n: nat)
    ensures |Decimal(n)| > 1 <==> n >= 10
  {
  }

  lemma {:induction false} DecimalInjective(m: nat, n: nat)
    requires Decimal(m) == Decimal(n)
    ensures m == n
  {
    var a, b := Decimal(m), Decimal(n);
    DecimalLength(m);
    DecimalLength(n);
    assert a[|a| - 1] == Digit(m % 10) && b[|b| - 1] == Digit(n % 10);
    if m >= 10 {
      assert a[..|a| - 1] == Decimal(m / 10) && b[..|b| - 1] == Decimal(n / 10);
      DecimalInjective(m / 10, n / 10);
    }
  }

  /** The number a text of digits stands for. */
  function ValueOf(digits: string): int {
    if digits == "" then 0
    else 10 * ValueOf(digits[..|digits| - 1]) + (digits[|digits| - 1] as int - '0' as int)
  }

  /** The decimal text reads back as the number, without a leading zero. */
  lemma {:induction false} DecimalReadsBack(n: nat)
    ensures forall c | c in Decimal(n) :: '0' <= c <= '9'
    ensures ValueOf(Decimal(n)) == n && (n > 0 ==> Decimal(n)[0] != '0')
  {
    if n >= 10 {
      DecimalReadsBack(n / 10);
      assert Decimal(n)[..|Decimal(n)| - 1] == Decimal(n / 10);
      assert Decimal(n)[|Decimal(n)| - 1] == Digit(n % 10);
    } else {
      assert Decimal(n) == [Digit(n)] && Decimal(n)[..0] == "";
      assert ValueOf("") == 0;
    }
  }

  // ----- names -----

  /** The last segment of a url's path, or a default when there is none. */
  function RawName(segments: seq<string>): string {
    if segments == [] || segments[|segments| - 1] == "" then "asset" else segments[|segments| - 1]
  }

  /** An asset is called like the last segment of its path, unless that is empty or missing. */
  lemma RawNameIsLast(segments: seq<string>, last: string)
    ensures RawName(segments + [last]) == if last == "" then "asset" else last
    ensures RawName([]) == "asset"
  {
    assert (segments + [last])[|segments + [last]| - 1] == last;
  }

  /** Where the last dot of a name is. */
  function LastDot(name: string): (r: Option<nat>)
    ensures r.Some? ==> r.value < |name| && name[r.value] == '.' && '.' !in name[r.value + 1..]
    ensures r.None? ==> '.' !in name
  {
    if name == "" then None
    else if name[|name| - 1] == '.' then Some(|name| - 1)
    else
      var r := LastDot(name[..|name| - 1]);
      assert r.Some? ==> name[r.value + 1..] == name[..|name| - 1][r.value + 1..] + [name[|name| - 1]];
      r
  }

  function Stem(name: string): string {
    match LastDot(name)
    case Some(i) => name[..i]
    case None => name
  }

  /** The extension with its dot, empty when there is none. */
  function Extension(name: string): string {
    match LastDot(name)
    case Some(i) => name[i..]
    case None => ""
  }

  function Candidate(name: string, i: nat): string {
    Stem(name) + "-" + Decimal(i) + Extension(name)
  }

  /** The number goes right before the last dot, or at the end when there is none; nothing of the name is lost. */
  lemma CandidateKeepsName(name: string, i: nat)
    ensures exists at: nat ::
              ExtensionStarts(name, at) && Candidate(name, i) == name[..at] + "-" + Decimal(i) + name[at..]
  {
    match LastDot(name)
    case Some(at) =>
      assert ExtensionStarts(name, at);
    case None =>
      assert name[..|name|] == name && name[|name|..] == "";
      assert ExtensionStarts(name, |name|);
  }

  /** The last dot, or the end of a name without one. */
  predicate ExtensionStarts(name: string, at: nat) {
    at <= |name| && if at < |name| then name[at] == '.' && '.' !in name[at + 1..] else '.' !in name
  }

  lemma CandidateInjective(name: string, i: nat, j: nat)
    requires Candidate(name, i) == Candidate(name, j)
    ensures i == j
  {
    var pre, post := Stem(name) + "-", Extension(name);
    Cancel(pre, Decimal(i), Decimal(j), post);
    DecimalInjective(i, j);
  }

  lemma Cancel(pre: string, a: string, b: string, post: string)
    requires pre + a + post == pre + b + post
    ensures a == b
  {
    assert |pre + a + post| == |pre + b + post|;
    assert a == (pre + a + post)[|pre|..|pre| + |a|];
    assert b == (pre + b + post)[|pre|..|pre| + |b|];
  }

  ghost function Candidates(name: string, end: nat): set<string> {
    set i | 2 <= i < end :: Candidate(name, i)
  }

  /** Different numbers give different names, so the first `n` candidates are `n` names. */
  lemma {:induction false} CandidatesSize(name: string, end: nat)
    requires end >= 2
    ensures |Candidates(name, end)| == end - 2
  {
    if end > 2 {
      CandidatesSize(name, end - 1);
      OneMoreCandidate(name, end - 1);
      LastIsNew(name, end - 1);
    }
  }

  lemma OneMoreCandidate(name: string, end: nat)
    requires end >= 2
    ensures Candidates(name, end + 1) == Candidates(name, end) + {Candidate(name, end)}
  {
  }

  lemma LastIsNew(name: string, end: nat)
    ensures Candidate(name, end) !in Candidates(name, end)
  {
    forall i | 2 <= i < end
      ensures Candidate(name, i) != Candidate(name, end)
    {
      CandidatesDiffer(name, i, end);
    }
  }

  lemma CandidatesDiffer(name: string, i: nat, j: nat)
    requires i != j
    ensures Candidate(name, i) != Candidate(name, j)
  {
    if Candidate(name, i) == Candidate(name, j) {
      CandidateInjective(name, i, j);
    }
  }

  /** The first free candidate, found after at most one more try than there are used names. */
  method AssetFilename(raw: string, used: set<string>) returns (name: string, marked: set<string>)
    ensures name !in used && marked == used + {name}
    ensures raw !in used ==> name == raw
    ensures raw in used ==> exists i :: 2 <= i <= |used| + 2 && name == Candidate(raw, i)
                                        && forall j | 2 <= j < i :: Candidate(raw, j) in used
  {
    name := raw;
    if name in used {
      var i := 2;
      while Candidate(raw, i) in used
        invariant 2 <= i <= |used| + 2
        invariant Candidates(raw, i) <= used
        invariant forall j | 2 <= j < i :: Candidate(raw, j) in used
        decreases |used| + 2 - i
      {
        OneMoreCandidate(raw, i);
        CandidatesSize(raw, i + 1);
        SubsetSize(Candidates(raw, i + 1), used);
        i := i + 1;
      }
      name := Candidate(raw, i);
    }
    marked := used + {name};
  }

  // ----- the fetch -----

  datatype Reply = Fetched(content: Bytes) | Refused(reason: string)

  /** A discovered asset: its url and the segments of its path, and what asking for it yields. */
  datatype Asset = Asset(url: string, segments: seq<string>, allowed: bool, reply: Reply)

  datatype Fate = IsFetched | IsSkipped | IsFailed

  function FateOf(asset: Asset): Fate {
    if !asset.allowed then IsSkipped else if asset.reply.Fetched? then IsFetched else IsFailed
  }

  /** The urls that met this fate, in order. */
  function Urls(assets: seq<Asset>, fate: Fate): seq<string> {
    if assets == [] then []
    else
      var last := assets[|assets| - 1];
      Urls(assets[..|assets| - 1], fate) + if FateOf(last) == fate then [last.url] else []
  }

  predicate Met(asset: Asset, fate: Fate) {
    match fate
    case IsSkipped => !asset.allowed
    case IsFetched => asset.allowed && asset.reply.Fetched?
    case IsFailed => asset.allowed && asset.reply.Refused?
  }

  /** The lists in full: asset `i` stands in the list of its fate, after those before it, and nowhere else. */
  lemma {:induction false} UrlsAt(assets: seq<Asset>, i: nat, fate: Fate)
    requires i < |assets|
    ensures var k := |Urls(assets[..i], fate)|;
            && Urls(assets[..i], fate) <= Urls(assets, fate)
            && Urls(assets[..i + 1], fate)
               == Urls(assets[..i], fate) + (if Met(assets[i], fate) then [assets[i].url] else [])
            && (Met(assets[i], fate) ==> k < |Urls(assets, fate)| && Urls(assets, fate)[k] == assets[i].url)
  {
    UrlsPrefix(assets, i, fate);
    UrlsPrefix(assets, i + 1, fate);
    assert assets[..i + 1][..i] == assets[..i];
  }

  lemma {:induction false} UrlsPrefix(assets: seq<Asset>, i: nat, fate: Fate)
    requires i <= |assets|
    ensures Urls(assets[..i], fate) <= Urls(assets, fate)
  {
    if i < |assets| {
      var shorter := assets[..|assets| - 1];
      UrlsPrefix(shorter, i, fate);
      assert shorter[..i] == assets[..i];
    } else {
      assert assets[..i] == assets;
    }
  }

  /** A fetched asset's content stands where its url stands. */
  lemma {:induction false} ContentsAt(assets: seq<Asset>, i: nat)
    requires i < |assets| && Met(assets[i], IsFetched)
    ensures var k := |Urls(assets[..i], IsFetched)|;
            k < |FetchedContents(assets)| && FetchedContents(assets)[k] == assets[i].reply.content
  {
    var shorter := assets[..|assets| - 1];
    ContentsSize(shorter);
    if i < |assets| - 1 {
      ContentsAt(shorter, i);
      assert shorter[..i] == assets[..i];
    } else {
      assert assets[..i] == shorter;
    }
  }

  lemma {:induction false} ContentsSize(assets: seq<Asset>)
    ensures |FetchedContents(assets)| == |Urls(assets, IsFetched)|
  {
    if assets != [] {
      ContentsSize(assets[..|assets| - 1]);
    }
  }

  /** Every asset met exactly one fate. */
  lemma {:induction false} FatesPartition(assets: seq<Asset>)
    ensures |Urls(assets, IsFetched)| + |Urls(assets, IsSkipped)| + |Urls(assets, IsFailed)| == |assets|
  {
    if assets != [] {
      FatesPartition(assets[..|assets| - 1]);
    }
  }

  /** The contents that were fetched, in order. */
  function FetchedContents(assets: seq<Asset>): seq<Bytes> {
    if assets == [] then []
    else
      var last := assets[|assets| - 1];
      FetchedContents(assets[..|assets| - 1]) + if FateOf(last) == IsFetched then [last.reply.content] else []
  }

  const MANIFEST := "manifest.json"

  function PathIn(dir: string, name: string): string {
    dir + "/" + name
  }

  lemma PathInjective(dir: string, a: string, b: string)
    requires PathIn(dir, a) == PathIn(dir, b)
    ensures a == b
  {
    assert a == PathIn(dir, a)[|dir| + 1..];
    assert b == PathIn(dir, b)[|dir| + 1..];
  }

  ghost predicate DistinctPaths(files: seq<(string, Bytes)>) {
    forall i, j | 0 <= i < j < |files| :: files[i].0 != files[j].0
  }

  /** While the loop runs: the files so far are stored under distinct names, all used, none reserved. */
  ghost predicate Stored(
    files: seq<(string, Bytes)>, dir: string, filename: string, names: seq<string>, used: set<string>)
  {
    && |files| == |names| && filename in used && MANIFEST in used
    && (forall i | 0 <= i < |files| :: files[i].0 == PathIn(dir, names[i]))
    && (forall i | 0 <= i < |names| :: names[i] in used && names[i] != filename && names[i] != MANIFEST)
    && forall i, j | 0 <= i < j < |names| :: names[i] != names[j]
  }

  lemma StoredOneMore(
    files: seq<(string, Bytes)>, dir: string, filename: string, names: seq<string>, used: set<string>,
    name: string, content: Bytes)
    requires Stored(files, dir, filename, names, used) && name !in used
    ensures Stored(files + [(PathIn(dir, name), content)], dir, filename, names + [name], used + {name})
  {
  }

  ghost function ContentsOf(files: seq<(string, Bytes)>): seq<Bytes> {
    seq(|files|, i requires 0 <= i < |files| => files[i].1)
  }

  /** The list of fetched assets: each url with the path its content is stored under. */
  ghost predicate Paired(fetched: seq<(string, string)>, urls: seq<string>, files: seq<(string, Bytes)>) {
    && |fetched| == |urls| == |files|
    && forall i | 0 <= i < |fetched| :: fetched[i] == (urls[i], files[i].0)
  }

  /**
   The asset loop.  The assets fetched are stored under paths that differ from each other, from the page
   and from the manifest.
   */
  method FetchAssets(dir: string, filename: string, assets: seq<Asset>)
    returns (files: seq<(string, Bytes)>, fetched: seq<(string, string)>, skipped: seq<string>, failed: seq<string>)
    ensures Paired(fetched, Urls(assets, IsFetched), files)
    ensures skipped == Urls(assets, IsSkipped) && failed == Urls(assets, IsFailed)
    ensures |fetched| + |skipped| + |failed| == |assets|
    ensures |files| == |fetched| && DistinctPaths(files)
    ensures ContentsOf(files) == FetchedContents(assets)
    ensures forall i | 0 <= i < |files| :: files[i].0 != PathIn(dir, filename) && files[i].0 != PathIn(dir, MANIFEST)
  {
    var used := {filename, MANIFEST};
    files, fetched, skipped, failed := [], [], [], [];
    ghost var names: seq<string> := [];
    for i := 0 to |assets|
      invariant Paired(fetched, Urls(assets[..i], IsFetched), files)
      invariant skipped == Urls(assets[..i], IsSkipped)
      invariant failed == Urls(assets[..i], IsFailed)
      invariant ContentsOf(files) == FetchedContents(assets[..i]) && |files| == |fetched|
      invariant Stored(files, dir, filename, names, used)
    {
      assert assets[..i + 1][..i] == assets[..i];
      var asset := assets[i];
      if !asset.allowed {
        skipped := skipped + [asset.url];
      } else {
        match asset.reply {
          case Fetched(content) =>
            ghost var before := used;
            var name;
            name, used := AssetFilename(RawName(asset.segments), used);
            StoredOneMore(files, dir, filename, names, before, name, content);
            assert ContentsOf(files + [(PathIn(dir, name), content)]) == ContentsOf(files) + [content];
            files := files + [(PathIn(dir, name), content)];
            fetched := fetched + [(asset.url, PathIn(dir, name))];
            names := names + [name];
          case Refused(_) =>
            failed := failed + [asset.url];
        }
      }
    }
    assert assets[..|assets|] == assets;
    FatesPartition(assets);
    DistinctNames(dir, filename, files, names, used);
  }

  lemma DistinctNames(dir: string, filename: string, files: seq<(string, Bytes)>, names: seq<string>, used: set<string>)
    requires Stored(files, dir, filename, names, used)
    ensures DistinctPaths(files)
    ensures forall i | 0 <= i < |files| :: files[i].0 != PathIn(dir, filename) && files[i].0 != PathIn(dir, MANIFEST)
  {
    forall i, j | 0 <= i < j < |files|
      ensures files[i].0 != files[j].0
    {
      if files[i].0 == files[j].0 {
        PathInjective(dir, names[i], names[j]);
      }
    }
    forall i | 0 <= i < |files|
      ensures files[i].0 != PathIn(dir, filename) && files[i].0 != PathIn(dir, MANIFEST)
    {
      if files[i].0 == PathIn(dir, filename) {
        PathInjective(dir, names[i], filename);
      }
      if files[i].0 == PathIn(dir, MANIFEST) {
        PathInjective(dir, names[i], MANIFEST);
      }
    }
  }

  // ----- what ends up in the workspace -----

  function Bundle(dir: string, filename: string, body: Bytes, assets: seq<(string, Bytes)>, manifest: Bytes)
    : seq<(string, Bytes)>
  {
    [(PathIn(dir, filename), body)] + assets + [(PathIn(dir, MANIFEST), manifest)]
  }

  /**
   One write stores the whole bundle: every asset and the manifest always, and the page exactly when it
   is not itself called like the manifest, which would replace it (or says the same).
   */
  lemma BundleIsStored(
    files: Contents, dir: string, filename: string, body: Bytes, assets: seq<(string, Bytes)>, manifest: Bytes)
    requires DistinctPaths(assets)
    requires forall i | 0 <= i < |assets| ::
               assets[i].0 != PathIn(dir, filename) && assets[i].0 != PathIn(dir, MANIFEST)
    ensures var stored := Inserted(files, Bundle(dir, filename, body, assets, manifest));
            && (forall i | 0 <= i < |assets| :: assets[i].0 in stored && stored[assets[i].0] == assets[i].1)
            && PathIn(dir, MANIFEST) in stored && stored[PathIn(dir, MANIFEST)] == manifest
            && PathIn(dir, filename) in stored
            && (stored[PathIn(dir, filename)] == body <==> filename != MANIFEST || body == manifest)
  {
    var bundle := Bundle(dir, filename, body, assets, manifest);
    var (page, rest) := (bundle[0], bundle[1..]);
    var afterPage := files[page.0 := page.1];
    assert rest == assets + [(PathIn(dir, MANIFEST), manifest)];
    assert DistinctPaths(rest);
    forall i | 0 <= i < |assets|
      ensures assets[i].0 in Inserted(files, bundle) && Inserted(files, bundle)[assets[i].0] == assets[i].1
    {
      InsertedIsLast(afterPage, rest, i);
    }
    InsertedIsLast(afterPage, rest, |assets|);
    if filename != MANIFEST {
      if PathIn(dir, filename) == PathIn(dir, MANIFEST) {
        PathInjective(dir, filename, MANIFEST);
      }
      InsertedKeepsOthers(afterPage, rest, PathIn(dir, filename));
    }
  }
}
