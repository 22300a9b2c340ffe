/** Lines of a configuration file, and the few string operations its editor looks at them with. */
module HermesText {
  import opened Utf8

  type Line = string

  /** The characters with the Unicode property White_Space. */
  predicate IsSpace(c: char) {
    var n := c as int;
    || 9 <= n <= 13 || n == 0x20 || n == 0x85 || n == 0xA0 || n == 0x1680 || 0x2000 <= n <= 0x200A
    || n == 0x2028 || n == 0x2029 || n == 0x202F || n == 0x205F || n == 0x3000
  }

  function TrimStart(s: string): string {
    if s != "" && IsSpace(s[0]) then TrimStart(s[1..]) else s
  }

  function TrimEnd(s: string): string {
    if s != "" && IsSpace(s[|s| - 1]) then TrimEnd(s[..|s| - 1]) else s
  }

  predicate IsBlank(s: string) {
    TrimStart(s) == ""
  }

  /** The number of bytes of leading white space. */
  function Indent(s: string): nat {
    if s != "" && IsSpace(s[0]) then Utf8Length(s[0]) + Indent(s[1..]) else 0
  }

  predicate StartsWith(s: string, prefix: string) {
    |prefix| <= |s| && s[..|prefix|] == prefix
  }

  /** Strips `prefix` as often as it occurs at the start. */
  function TrimStartMatches(s: string, prefix: string): string
    requires prefix != ""
    decreases |s|
  {
    if StartsWith(s, prefix) then TrimStartMatches(s[|prefix|..], prefix) else s
  }

  lemma {:induction false} TrimEndIsPrefix(s: string)
    ensures StartsWith(s, TrimEnd(s))
  {
    if s != "" && IsSpace(s[|s| - 1]) {
      TrimEndIsPrefix(s[..|s| - 1]);
      assert s[..|s| - 1][..|TrimEnd(s)|] == s[..|TrimEnd(s)|];
    }
  }

  // ----- what these say about characters -----

  const WHITE_SPACE :=
    "\U{9}\U{A}\U{B}\U{C}\U{D}\U{20}\U{85}\U{A0}\U{1680}\U{2000}\U{2001}\U{2002}\U{2003}\U{2004}\U{2005}\U{2006}"
    + "\U{2007}\U{2008}\U{2009}\U{200A}\U{2028}\U{2029}\U{202F}\U{205F}\U{3000}"

  lemma SpacesAreWhite(c: char)
    ensures IsSpace(c) <==> c in WHITE_SPACE
  {
  }

  ghost predicate AllSpace(s: string) {
    forall i | 0 <= i < |s| :: IsSpace(s[i])
  }

  lemma {:induction false} BlankIsAllSpace(s: string)
    ensures IsBlank(s) <==> AllSpace(s)
  {
    if s != "" && IsSpace(s[0]) {
      BlankIsAllSpace(s[1..]);
      assert forall i | 1 <= i < |s| :: s[i] == s[1..][i - 1];
    }
  }

  lemma AllSpaceOneMore(s: string, c: char)
    ensures AllSpace(s + [c]) <==> AllSpace(s) && IsSpace(c)
  {
    assert (s + [c])[|s|] == c;
    assert forall i | 0 <= i < |s| :: (s + [c])[i] == s[i];
  }

  /** A text that ends in no space is what is left of exactly the lines that append spaces to it. */
  lemma {:induction false} TrimEndExactly(s: string, core: string)
    requires core != "" && !IsSpace(core[|core| - 1])
    ensures TrimEnd(s) == core <==> |core| <= |s| && s[..|core|] == core && AllSpace(s[|core|..])
  {
    if s != "" && IsSpace(s[|s| - 1]) {
      var shorter := s[..|s| - 1];
      TrimEndExactly(shorter, core);
      if |core| <= |shorter| {
        AllSpaceOneMore(shorter[|core|..], s[|s| - 1]);
        assert s[|core|..] == shorter[|core|..] + [s[|s| - 1]];
        assert s[..|core|] == shorter[..|core|];
      } else if |core| == |s| {
        assert s[..|core|] == s;
      }
    } else if |core| < |s| {
      assert s[|core|..][|s| - |core| - 1] == s[|s| - 1];
    }
  }

  /** The indent is the number of bytes of the white space a line starts with. */
  lemma {:induction false} IndentIsBytes(white: string, rest: string)
    requires AllSpace(white) && (rest == "" || !IsSpace(rest[0]))
    ensures Indent(white + rest) == ByteLength(white)
  {
    if white == "" {
      assert white + rest == rest;
    } else {
      IndentIsBytes(white[1..], rest);
      assert (white + rest)[1..] == white[1..] + rest;
    }
  }

  // ----- finding lines -----

  /** The first line from `from` on that satisfies `p`, or the number of lines. */
  function First(lines: seq<Line>, from: nat, p: Line -> bool): (r: nat)
    requires from <= |lines|
    ensures from <= r <= |lines|
    ensures r < |lines| ==> p(lines[r])
    ensures forall i | from <= i < r :: !p(lines[i])
    decreases |lines| - from
  {
    if from == |lines| || p(lines[from]) then from else First(lines, from + 1, p)
  }

  /** The first line from `from` on that satisfies `p` is `k`. */
  ghost predicate FirstAt(lines: seq<Line>, from: nat, p: Line -> bool, k: nat) {
    && from <= k <= |lines|
    && (k < |lines| ==> p(lines[k]))
    && forall i | from <= i < k :: !p(lines[i])
  }

  lemma FirstIs(lines: seq<Line>, from: nat, p: Line -> bool, k: nat)
    requires FirstAt(lines, from, p, k)
    ensures First(lines, from, p) == k
  {
    var r := First(lines, from, p);
    assert r < |lines| ==> p(lines[r]);
  }

  lemma FirstInPrefix(lines: seq<Line>, end: nat, from: nat, p: Line -> bool, k: nat)
    requires FirstAt(lines, from, p, k) && k < end <= |lines|
    ensures First(lines[..end], from, p) == k
  {
    FirstIs(lines[..end], from, p, k);
  }

  // ----- subsequences and filters -----

  /** `few` is `many` with some lines left out. */
  ghost predicate Subsequence(few: seq<Line>, many: seq<Line>) {
    if few == [] then true
    else if many == [] then false
    else (few[0] == many[0] && Subsequence(few[1..], many[1..])) || Subsequence(few, many[1..])
  }

  lemma {:induction false} SubsequenceOfInsertion(a: seq<Line>, inserted: seq<Line>, b: seq<Line>)
    ensures Subsequence(a + b, a + inserted + b)
    decreases |a|, |inserted|, |b|
  {
    if a != [] {
      assert (a + b)[1..] == a[1..] + b;
      assert (a + inserted + b)[1..] == a[1..] + inserted + b;
      SubsequenceOfInsertion(a[1..], inserted, b);
    } else if inserted != [] {
      assert (a + inserted + b)[1..] == a + inserted[1..] + b;
      SubsequenceOfInsertion(a, inserted[1..], b);
    } else if b != [] {
      assert a + b == b && a + inserted + b == b;
      assert b[1..] == a + b[1..] && b[1..] == a + inserted + b[1..];
      SubsequenceOfInsertion(a, inserted, b[1..]);
    }
  }

  function Filter<T>(xs: seq<T>, p: T -> bool): seq<T> {
    if xs == [] then [] else (if p(xs[0]) then [xs[0]] else []) + Filter(xs[1..], p)
  }

  lemma {:induction false} FilterAppend<T>(a: seq<T>, b: seq<T>, p: T -> bool)
    ensures Filter(a + b, p) == Filter(a, p) + Filter(b, p)
  {
    if a == [] {
      assert a + b == b;
    } else {
      FilterAppend(a[1..], b, p);
      assert (a + b)[1..] == a[1..] + b && (a + b)[0] == a[0];
      var first := if p(a[0]) then [a[0]] else [];
      assert first + (Filter(a[1..], p) + Filter(b, p)) == first + Filter(a[1..], p) + Filter(b, p);
    }
  }

  /** A filter that keeps everything changes nothing; one that drops something shortens. */
  lemma {:induction false} FilterSize<T>(xs: seq<T>, p: T -> bool)
    ensures |Filter(xs, p)| <= |xs|
    ensures |Filter(xs, p)| == |xs| <==> forall i | 0 <= i < |xs| :: p(xs[i])
    ensures |Filter(xs, p)| == |xs| ==> Filter(xs, p) == xs
  {
    if xs != [] {
      FilterSize(xs[1..], p);
      assert xs == [xs[0]] + xs[1..];
      assert forall i | 0 <= i < |xs[1..]| :: xs[1..][i] == xs[i + 1];
    }
  }

  lemma {:induction false} FilterNone<T>(xs: seq<T>, p: T -> bool)
    requires forall i | 0 <= i < |xs| :: !p(xs[i])
    ensures Filter(xs, p) == []
  {
    if xs != [] {
      FilterNone(xs[1..], p);
    }
  }

  /** A filter keeps every copy of what it lets through, and no other line. */
  lemma {:induction false} FilterCounts(xs: seq<Line>, p: Line -> bool, x: Line)
    ensures multiset(Filter(xs, p))[x] == if p(x) then multiset(xs)[x] else 0
  {
    if xs != [] {
      FilterCounts(xs[1..], p, x);
      assert xs == [xs[0]] + xs[1..];
    }
  }

  lemma {:induction false} FilterIsSubsequence(xs: seq<Line>, p: Line -> bool)
    ensures Subsequence(Filter(xs, p), xs)
  {
    if xs != [] {
      FilterIsSubsequence(xs[1..], p);
      if p(xs[0]) {
        assert Filter(xs, p) == [xs[0]] + Filter(xs[1..], p);
        assert Filter(xs, p)[1..] == Filter(xs[1..], p);
      } else {
        assert Filter(xs, p) == Filter(xs[1..], p);
      }
    }
  }
}
