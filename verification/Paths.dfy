/** Paths of packaged files: what is accepted, and how they are taken apart. */
module Paths {
  import opened Bytes
  import opened Text

  const SLASH: byte := '/' as int
  const BACKSLASH: byte := '\\' as int
  const MAXIMUM_PATH_SIZE: nat := 240
  const RESERVED: seq<byte> :=
    [':' as int, '*' as int, '?' as int, '\"' as int, '<' as int, '>' as int, '|' as int]

  /** The segments between slashes. */
  function Split(path: seq<byte>): (r: seq<seq<byte>>)
    ensures r != []
  {
    var k := IndexOf(path, SLASH);
    if k == |path| then [path] else [path[..k]] + Split(path[k + 1..])
  }

  function Join(segments: seq<seq<byte>>): seq<byte> {
    if segments == [] then []
    else if |segments| == 1 then segments[0]
    else segments[0] + [SLASH] + Join(segments[1..])
  }

  /** Splitting loses nothing. */
  lemma {:induction false} JoinOfSplit(path: seq<byte>)
    ensures Join(Split(path)) == path
  {
    var k := IndexOf(path, SLASH);
    if k < |path| {
      JoinOfSplit(path[k + 1..]);
      assert Split(path)[1..] == Split(path[k + 1..]);
      assert path == path[..k] + [SLASH] + path[k + 1..];
    }
  }

  predicate PlainByte(c: byte) {
    c >= 0x20 && c != 0x7f && c !in RESERVED
  }

  /** A plain file or directory name: it cannot name the directory itself or its parent. */
  predicate PlainName(s: seq<byte>) {
    && s != [] && s != [DOT] && s != [DOT, DOT] && s[|s| - 1] != DOT
    && forall i :: 0 <= i < |s| ==> PlainByte(s[i])
  }

  /** A relative path of plain names. */
  predicate ValidPath(path: seq<byte>) {
    && 0 < |path| <= MAXIMUM_PATH_SIZE
    && BACKSLASH !in path && AllPlain(path)
  }

  predicate AllPlain(path: seq<byte>) {
    forall s :: s in Split(path) ==> PlainName(s)
  }

  method CheckName(segment: seq<byte>) returns (ok: bool)
    ensures ok == PlainName(segment)
  {
    if segment == [] || segment == [DOT] || segment == [DOT, DOT] || segment[|segment| - 1] == DOT {
      return false;
    }
    for index := 0 to |segment|
      invariant forall i :: 0 <= i < index ==> PlainByte(segment[i])
    {
      if !PlainByte(segment[index]) {
        return false;
      }
    }
    ok := true;
  }

  lemma SplitAt(path: seq<byte>, start: nat, end: nat)
    requires start <= |path| && First(path, SLASH, start, end)
    ensures Split(path[start..]) ==
      if end == |path| then [path[start..]] else [path[start..end]] + Split(path[end + 1..])
  {
    var rest := path[start..];
    var k := IndexOf(rest, SLASH);
    assert rest[..end - start] == path[start..end];
    assert k <= end - start by {
      if end < |path| {
        assert rest[end - start] == SLASH;
      }
    }
    assert k >= end - start by {
      if k < |rest| {
        assert path[start + k] == SLASH;
      }
    }
    if end < |path| {
      assert rest[k + 1..] == path[end + 1..];
    }
  }

  lemma SlashSegments(path: seq<byte>)
    requires path != [] && AllPlain(path)
    ensures path[0] != SLASH && path[|path| - 1] != SLASH
  {
    assert Split(path)[0] in Split(path);
    if path[|path| - 1] == SLASH {
      TrailingSlash(path);
    }
  }

  lemma {:induction false} TrailingSlash(path: seq<byte>)
    requires path != [] && path[|path| - 1] == SLASH
    ensures [] in Split(path)
  {
    hide IndexOf;
    var k := IndexOf(path, SLASH);
    assert k < |path|;
    var rest := path[k + 1..];
    if rest != [] {
      TrailingSlash(rest);
    } else {
      assert Split(rest) == [rest];
      assert [] in Split(rest);
    }
    AddedSegment(path[..k], Split(rest), []);
  }

  lemma AddedSegment(first: seq<byte>, rest: seq<seq<byte>>, s: seq<byte>)
    requires s in rest
    ensures s in [first] + rest
  {
  }

  lemma AllPlainAt(path: seq<byte>, start: nat, end: nat)
    requires start <= |path| && First(path, SLASH, start, end)
    ensures AllPlain(path[start..]) <==>
      PlainName(path[start..end]) && (end < |path| ==> AllPlain(path[end + 1..]))
  {
    hide PlainName;
    SplitAt(path, start, end);
    assert end == |path| ==> path[start..] == path[start..end];
    assert Split(path[start..])[0] == path[start..end];
  }

  /** Walks the segments, front to back; accepts exactly the relative paths of plain names. */
  method CheckPath(path: seq<byte>) returns (ok: bool)
    ensures ok == ValidPath(path)
  {
    hide AllPlain, PlainName;
    if path == [] || |path| > MAXIMUM_PATH_SIZE || BACKSLASH in path {
      return false;
    }
    if path[0] == SLASH || path[|path| - 1] == SLASH {
      if AllPlain(path) {
        SlashSegments(path);
      }
      return false;
    }
    var start := 0;
    assert path[0..] == path;
    while start < |path|
      invariant 0 <= start <= |path|
      invariant start > 0 ==> path[start - 1] == SLASH
      invariant AllPlain(path[start..]) <==> AllPlain(path)
      decreases |path| - start
    {
      var end := Find(path, SLASH, start);
      AllPlainAt(path, start, end);
      var plain := CheckName(path[start..end]);
      if !plain || end == |path| {
        return plain;
      }
      start := end + 1;
    }
    ok := true;
  }

  /** The components a path is created under: its segments, except an empty one after a last slash. */
  function Components(path: seq<byte>): seq<seq<byte>> {
    if path == [] then []
    else if path[|path| - 1] == SLASH then Split(path)[..|Split(path)| - 1]
    else Split(path)
  }

  method SplitPath(path: seq<byte>) returns (components: seq<seq<byte>>)
    ensures components == Components(path)
  {
    hide Split;
    components := [];
    var start := 0;
    assert path[0..] == path;
    while start < |path|
      invariant 0 <= start <= |path|
      invariant start > 0 ==> path[start - 1] == SLASH
      invariant components + Split(path[start..]) == Split(path)
      decreases |path| - start
    {
      var end := Find(path, SLASH, start);
      SplitAt(path, start, end);
      components := components + [path[start..end]];
      if end == |path| {
        assert path[start..] == path[start..end];
        assert path[|path| - 1] != SLASH;
        return;
      }
      start := end + 1;
    }
    SplitNothing();
    assert path[start..] == [];
  }

  lemma SplitNothing()
    ensures Split([]) == [[]]
  {
  }

  /** A valid path is created component by component under plain names only. */
  lemma ValidPathStaysInside(path: seq<byte>, i: nat)
    requires ValidPath(path) && i < |Split(path)|
    ensures Split(path)[i] != [] && Split(path)[i] != [DOT] && Split(path)[i] != [DOT, DOT]
    ensures Join(Split(path)) == path && path[0] != SLASH && path[|path| - 1] != SLASH
  {
    assert Split(path)[i] in Split(path);
    JoinOfSplit(path);
    SlashSegments(path);
  }

  /** The directory reached after the first `k` components, or the file when `k` is all of them. */
  function Place(components: seq<seq<byte>>, k: nat): seq<byte>
    requires k <= |components|
  {
    Join(components[..k])
  }

  /** `d` names a directory above `path`. */
  predicate Above(d: seq<byte>, path: seq<byte>) { d + [SLASH] <= path }

  /** One of two paths names the other, or a directory above it. */
  predicate Clash(p: seq<byte>, q: seq<byte>) { p == q || Above(p, q) || Above(q, p) }

  lemma SplitFirst(path: seq<byte>)
    ensures
      var n := IndexOf(path, SLASH);
      && n <= |path|
      && if n == |path| then Split(path) == [path]
         else Split(path) == [path[..n]] + Split(path[n + 1..]) && path == path[..n] + [SLASH] + path[n + 1..]
  {
    var n := IndexOf(path, SLASH);
    SlashAt(path, n);
    hide IndexOf;
  }

  lemma SlashAt(path: seq<byte>, n: nat)
    requires First(path, SLASH, 0, n)
    ensures n < |path| ==> path == path[..n] + [SLASH] + path[n + 1..]
  {
    if n < |path| {
      assert path[n..] == [path[n]] + path[n + 1..];
    }
  }

  lemma AboveHasSlash(d: seq<byte>, path: seq<byte>)
    requires Above(d, path)
    ensures |d| < |path| && path[|d|] == SLASH && d == path[..|d|]
  {
    assert (d + [SLASH])[|d|] == path[|d|];
    assert (d + [SLASH])[..|d|] == d;
  }

  /** The places on the way to a path are directories above it. */
  lemma {:induction false} PlaceIsAbove(path: seq<byte>, k: nat)
    requires 1 <= k < |Split(path)|
    ensures Above(Place(Split(path), k), path)
  {
    hide *;
    var n := IndexOf(path, SLASH);
    SplitFirst(path);
    var head, rest := path[..n], path[n + 1..];
    PlaceOfPath(path, k);
    if k > 1 {
      PlaceIsAbove(rest, k - 1);
      AboveStep(head, rest, Place(Split(rest), k - 1));
    } else {
      AboveHead(head, rest);
    }
  }

  lemma AboveHead(head: seq<byte>, rest: seq<byte>)
    ensures Above(head, head + [SLASH] + rest)
  {
  }

  lemma AboveSplits(d: seq<byte>, path: seq<byte>, n: nat)
    requires Above(d, path) && n < |path| && path[n] == SLASH && n < |d|
    ensures d == path[..n] + [SLASH] + d[n + 1..]
  {
    AboveHasSlash(d, path);
    assert d[n] == path[n] && d[..n] == path[..n];
  }

  lemma AboveIsPast(d: seq<byte>, path: seq<byte>)
    requires Above(d, path)
    ensures
      var n := IndexOf(path, SLASH);
      n < |path| && path[n] == SLASH && n <= |d| && (|d| == n ==> d == path[..n])
  {
    AboveHasSlash(d, path);
  }

  /** And every directory above it is such a place. */
  lemma {:induction false} AboveIsPlace(path: seq<byte>, d: seq<byte>) returns (k: nat)
    requires Above(d, path)
    ensures 1 <= k < |Split(path)| && Place(Split(path), k) == d
    decreases |path|
  {
    AboveIsPast(d, path);
    hide *;
    var n := IndexOf(path, SLASH);
    if |d| == n {
      PlaceOfPath(path, 1);
      k := 1;
    } else {
      AboveRest(path, d);
      k := AboveIsPlace(path[n + 1..], d[n + 1..]);
      PlaceOfPath(path, k + 1);
      k := k + 1;
    }
  }

  lemma AboveRest(path: seq<byte>, d: seq<byte>)
    requires Above(d, path) && |d| > IndexOf(path, SLASH)
    ensures
      var n := IndexOf(path, SLASH);
      n < |path| && d == path[..n] + [SLASH] + d[n + 1..] && Above(d[n + 1..], path[n + 1..])
  {
    AboveIsPast(d, path);
    hide *;
    var n := IndexOf(path, SLASH);
    AboveSplits(d, path, n);
    SplitFirst(path);
    AboveStep(path[..n], path[n + 1..], d[n + 1..]);
  }

  lemma PlaceOfPath(path: seq<byte>, k: nat)
    requires IndexOf(path, SLASH) < |path| && 1 <= k <= |Split(path[IndexOf(path, SLASH) + 1..])| + 1
    ensures
      var n := IndexOf(path, SLASH);
      var rest := Split(path[n + 1..]);
      && |Split(path)| == |rest| + 1
      && Place(Split(path), k) == if k == 1 then path[..n] else path[..n] + [SLASH] + Place(rest, k - 1)
  {
    hide *;
    var n := IndexOf(path, SLASH);
    SplitFirst(path);
    PlaceStep(path[..n], Split(path[n + 1..]), k);
  }

  lemma AboveStep(head: seq<byte>, rest: seq<byte>, e: seq<byte>)
    ensures Above(head + [SLASH] + e, head + [SLASH] + rest) <==> Above(e, rest)
  {
    var d, path := head + [SLASH] + e, head + [SLASH] + rest;
    assert d + [SLASH] == head + [SLASH] + (e + [SLASH]);
    if Above(d, path) {
      assert path[|head| + 1..] == rest && (d + [SLASH])[|head| + 1..] == e + [SLASH];
      assert rest[..|e| + 1] == path[|head| + 1..|head| + 2 + |e|];
    }
    if Above(e, rest) {
      assert rest == e + [SLASH] + rest[|e| + 1..];
      assert path == d + [SLASH] + rest[|e| + 1..];
    }
  }

  lemma PlaceStep(head: seq<byte>, rest: seq<seq<byte>>, k: nat)
    requires 1 <= k <= |rest| + 1
    ensures Place([head] + rest, k) == if k == 1 then head else head + [SLASH] + Place(rest, k - 1)
  {
    assert ([head] + rest)[..k] == [head] + rest[..k - 1];
    assert ([head] + rest[..k - 1])[1..] == rest[..k - 1];
  }

  /** A valid path has its segments as components, none of them empty, and is its own last place. */
  lemma ValidPathPlaces(path: seq<byte>)
    requires ValidPath(path)
    ensures Components(path) == Split(path) && Place(Split(path), |Split(path)|) == path
    ensures forall k :: 0 <= k < |Split(path)| ==> Split(path)[k] != []
  {
    SlashSegments(path);
    JoinOfSplit(path);
    assert Split(path)[..|Split(path)|] == Split(path);
    forall k | 0 <= k < |Split(path)|
      ensures Split(path)[k] != []
    {
      assert Split(path)[k] in Split(path);
    }
  }

  /** From `i` up to `j`, between slashes or the ends of the path. */
  ghost predicate Segment(path: seq<byte>, i: nat, j: nat) {
    && i <= j <= |path| && (i == 0 || path[i - 1] == 47) && (j == |path| || path[j] == 47)
    && forall k :: i <= k < j ==> path[k] != 47
  }

  /** Not empty, without a dot at the end, and without control characters or the bytes `"*:<>?|`. */
  predicate GoodSegment(path: seq<byte>, i: nat, j: nat)
    requires i <= j <= |path|
  {
    && i < j && path[j - 1] != 46
    && forall k :: i <= k < j ==> path[k] >= 32 && path[k] !in {34, 42, 58, 60, 62, 63, 124, 127}
  }

  lemma GoodIsPlain(path: seq<byte>, i: nat, j: nat)
    requires i <= j <= |path|
    ensures GoodSegment(path, i, j) <==> PlainName(path[i..j])
  {
    var s := path[i..j];
    assert forall k :: 0 <= k < |s| ==> s[k] == path[i + k];
    assert forall k :: i <= k < j ==> path[k] == s[k - i];
    assert forall c: byte :: c in RESERVED <==> c in {34, 42, 58, 60, 62, 63, 124};
  }

  ghost predicate GoodFrom(path: seq<byte>, start: nat) {
    forall i: nat, j: nat :: start <= i && Segment(path, i, j) ==> GoodSegment(path, i, j)
  }

  lemma {:induction false} SplitIsSegments(path: seq<byte>, start: nat)
    requires start <= |path| && (start == 0 || path[start - 1] == 47)
    ensures (forall s :: s in Split(path[start..]) ==> PlainName(s)) <==> GoodFrom(path, start)
    decreases |path| - start
  {
    hide PlainName, GoodSegment, Split;
    var end := EndOf(path, start);
    SplitAt(path, start, end);
    GoodIsPlain(path, start, end);
    assert path[start..|path|] == path[start..];
    FirstSegment(path, start, end);
    if end < |path| {
      SplitIsSegments(path, end + 1);
    }
  }

  lemma EndOf(path: seq<byte>, start: nat) returns (end: nat)
    requires start <= |path|
    ensures First(path, 47, start, end)
  {
    var rest := path[start..];
    end := start + IndexOf(rest, 47);
    assert forall k :: start <= k < end ==> path[k] == rest[k - start];
  }

  lemma FirstSegment(path: seq<byte>, start: nat, end: nat)
    requires start <= |path| && (start == 0 || path[start - 1] == 47) && First(path, 47, start, end)
    ensures GoodFrom(path, start) <==> GoodSegment(path, start, end) && (end < |path| ==> GoodFrom(path, end + 1))
  {
    hide GoodSegment;
    assert Segment(path, start, end);
    forall i: nat, j: nat | start <= i && Segment(path, i, j)
      ensures (i == start && j == end) || (end < |path| && end + 1 <= i)
    {
      if i > start {
        assert path[i - 1] == 47;
      }
    }
  }

  /** A path is accepted if and only if it has one to 240 bytes, no backslash, and only good segments. */
  lemma ValidPathMeans(path: seq<byte>)
    ensures ValidPath(path) <==>
      1 <= |path| <= 240 && 92 !in path && forall i: nat, j: nat :: Segment(path, i, j) ==> GoodSegment(path, i, j)
  {
    hide PlainName, GoodSegment, Segment, Split;
    assert path[0..] == path;
    SplitIsSegments(path, 0);
  }
}
