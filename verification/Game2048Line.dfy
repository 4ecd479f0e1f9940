/** One line of the 2048 board: collapsing it, and the motions that explain the collapse. */
module Game2048Line {
  import opened Bytes

  type Line = s: seq<u16> | |s| == 4 witness [0, 0, 0, 0]

  /** The tiles of a line, gaps removed. */
  function Compact(s: seq<u16>): (r: seq<u16>)
    ensures |r| <= |s|
  {
    if s == [] then []
    else if s[0] == 0 then Compact(s[1..])
    else [s[0]] + Compact(s[1..])
  }

  /** Two equal tiles become one of twice the value, unless that value does not fit 16 bits. */
  function Doubled(v: u16): u16 { if v <= 0x7fff then 2 * v else v }

  /** Merges neighbours pairwise, from the front. */
  function Merge(t: seq<u16>): (r: seq<u16>)
    ensures |r| <= |t|
  {
    if t == [] then []
    else if |t| >= 2 && t[0] == t[1] then [Doubled(t[0])] + Merge(t[2..])
    else [t[0]] + Merge(t[1..])
  }

  function MergeScore(t: seq<u16>): nat {
    if t == [] then 0
    else if |t| >= 2 && t[0] == t[1] then Doubled(t[0]) + MergeScore(t[2..])
    else MergeScore(t[1..])
  }

  /** Bit `k` is set when place `k` of the result was merged. */
  function MergeMask(t: seq<u16>): nat {
    if t == [] then 0
    else if |t| >= 2 && t[0] == t[1] then 1 + 2 * MergeMask(t[2..])
    else 2 * MergeMask(t[1..])
  }

  predicate Bit(mask: nat, k: nat) { if k == 0 then mask % 2 == 1 else Bit(mask / 2, k - 1) }

  function ZeroTiles(n: nat): (r: seq<u16>)
    ensures |r| == n && forall i :: 0 <= i < n ==> r[i] == 0
  {
    seq(n, _ => 0)
  }

  /** The line after a move towards its front. */
  function Collapse(line: seq<u16>): (r: seq<u16>)
    ensures |r| == |line|
  {
    var merged := Merge(Compact(line));
    merged + ZeroTiles(|line| - |merged|)
  }

  /** First pass: the non-zero values, in order. */
  method CompactLine(input: Line) returns (compact: seq<u16>)
    ensures compact == Compact(input)
  {
    hide Compact;
    compact := [];
    assert input[0..] == input;
    for index := 0 to 4
      invariant compact + Compact(input[index..]) == Compact(input)
    {
      CompactStep(input, index);
      if input[index] != 0 {
        compact := compact + [input[index]];
      }
    }
    CompactNothing(input);
  }

  lemma CompactStep(s: seq<u16>, i: nat)
    requires i < |s|
    ensures Compact(s[i..]) == (if s[i] != 0 then [s[i]] else []) + Compact(s[i + 1..])
  {
    assert s[i..][1..] == s[i + 1..];
  }

  lemma CompactNothing(s: seq<u16>)
    ensures Compact(s[|s|..]) == []
  {
  }

  /** Collapses a line: the second pass merges pairs of equal neighbours into the output. */
  method CollapseLine(input: Line) returns (values: Line, scoreDelta: nat, mergeMask: nat, changed: bool)
    ensures values == Collapse(input) && scoreDelta == MergeScore(Compact(input))
    ensures mergeMask == MergeMask(Compact(input)) && changed == (Collapse(input) != input)
  {
    hide Compact, Merge, MergeScore, MergeMask;
    var compact := CompactLine(input);
    assert compact[0..] == compact;
    var count := |compact|;
    var index, output := 0, 0;
    values, scoreDelta, mergeMask := [0, 0, 0, 0], 0, 0;
    var weight: nat := 1;
    ghost var written: seq<u16> := [];
    while index < count
      invariant 0 <= output <= index <= count <= 4 && |written| == output
      invariant values == written + ZeroTiles(4 - output)
      invariant written + Merge(compact[index..]) == Merge(compact)
      invariant scoreDelta + MergeScore(compact[index..]) == MergeScore(compact)
      invariant mergeMask + weight * MergeMask(compact[index..]) == MergeMask(compact)
    {
      MergeStep(compact, index);
      MaskStep(compact, index, weight);
      var value := compact[index];
      if index + 1 < count && compact[index + 1] == value {
        value := Doubled(value);
        scoreDelta := scoreDelta + value;
        mergeMask := mergeMask + weight;
        index := index + 1;
      }
      weight := 2 * weight;
      values := values[output := value];
      written := written + [value];
      output := output + 1;
      index := index + 1;
    }
    MergeNothing(compact);
    MaskNothing(compact, weight);
    changed := values != input;
  }

  lemma MergeStep(t: seq<u16>, i: nat)
    requires i < |t|
    ensures
      var pair := i + 1 < |t| && t[i + 1] == t[i];
      var tile, next := if pair then Doubled(t[i]) else t[i], if pair then i + 2 else i + 1;
      && Merge(t[i..]) == [tile] + Merge(t[next..])
      && MergeScore(t[i..]) == (if pair then tile else 0) + MergeScore(t[next..])
  {
    var rest := t[i..];
    assert rest[1..] == t[i + 1..];
    if i + 1 < |t| {
      assert rest[2..] == t[i + 2..];
    }
  }

  lemma MaskStep(t: seq<u16>, i: nat, weight: nat)
    requires i < |t|
    ensures
      var pair := i + 1 < |t| && t[i + 1] == t[i];
      var next := if pair then i + 2 else i + 1;
      weight * MergeMask(t[i..]) == (if pair then weight else 0) + (2 * weight) * MergeMask(t[next..])
  {
    hide MergeMask;
    var pair := i + 1 < |t| && t[i + 1] == t[i];
    MaskAt(t, i);
    Weighted(weight, if pair then 1 else 0, MergeMask(t[if pair then i + 2 else i + 1..]));
  }

  lemma Weighted(w: nat, b: nat, m: nat)
    requires b <= 1
    ensures w * (b + 2 * m) == (if b == 1 then w else 0) + (2 * w) * m
  {
  }

  lemma MaskAt(t: seq<u16>, i: nat)
    requires i < |t|
    ensures
      var pair := i + 1 < |t| && t[i + 1] == t[i];
      MergeMask(t[i..]) == (if pair then 1 else 0) + 2 * MergeMask(t[if pair then i + 2 else i + 1..])
  {
    var rest := t[i..];
    assert rest[1..] == t[i + 1..];
    if i + 1 < |t| {
      assert rest[2..] == t[i + 2..];
    }
  }

  lemma MaskNothing(t: seq<u16>, weight: nat)
    ensures weight * MergeMask(t[|t|..]) == 0
  {
  }

  lemma MergeNothing(t: seq<u16>)
    ensures Merge(t[|t|..]) == [] && MergeScore(t[|t|..]) == 0
  {
  }

  predicate NoZero(t: seq<u16>) { forall i :: 0 <= i < |t| ==> t[i] != 0 }

  predicate NoEqualNeighbours(t: seq<u16>) { forall i :: 0 < i < |t| ==> t[i - 1] != t[i] }

  lemma {:induction false} CompactFacts(s: seq<u16>)
    ensures NoZero(Compact(s))
    ensures |Compact(s)| == |s| ==> Compact(s) == s
    ensures NoZero(s) ==> Compact(s) == s
  {
    if s != [] {
      CompactFacts(s[1..]);
      assert s == [s[0]] + s[1..];
      assert NoZero(s) ==> NoZero(s[1..]);
    }
  }

  lemma {:induction false} MergeNoZero(t: seq<u16>)
    requires NoZero(t)
    ensures NoZero(Merge(t))
  {
    if t != [] {
      MergeNoZero(if |t| >= 2 && t[0] == t[1] then t[2..] else t[1..]);
    }
  }

  /** Merging shortens the list exactly when two neighbours are equal. */
  lemma {:induction false} MergeShortens(t: seq<u16>)
    ensures NoEqualNeighbours(t) ==> Merge(t) == t
    ensures |Merge(t)| == |t| ==> NoEqualNeighbours(t)
  {
    if t != [] {
      if |t| >= 2 && t[0] == t[1] {
      } else {
        MergeShortens(t[1..]);
        assert t == [t[0]] + t[1..];
        assert NoEqualNeighbours(t) ==> NoEqualNeighbours(t[1..]);
        if NoEqualNeighbours(t[1..]) {
          forall i | 0 < i < |t|
            ensures t[i - 1] != t[i]
          {
            if i > 1 {
              assert t[1..][i - 2] != t[1..][i - 1];
            }
          }
        }
      }
    }
  }

  lemma {:induction false} CompactPacked(x: seq<u16>, n: nat)
    requires NoZero(x)
    ensures Compact(x + ZeroTiles(n)) == x
    decreases |x| + n
  {
    var s := x + ZeroTiles(n);
    if x != [] {
      assert s[1..] == x[1..] + ZeroTiles(n);
      CompactPacked(x[1..], n);
    } else if n > 0 {
      assert s[1..] == [] + ZeroTiles(n - 1);
      CompactPacked([], n - 1);
    }
  }

  /** A line a move leaves alone: its tiles are packed at the front and no two neighbours match. */
  predicate Settled(line: seq<u16>) {
    forall i :: 0 < i < |line| ==>
      (line[i - 1] == 0 ==> line[i] == 0) && (line[i - 1] != 0 ==> line[i - 1] != line[i])
  }

  function Tiles(line: seq<u16>): (n: nat)
    ensures n <= |line|
    ensures forall i :: 0 <= i < n ==> line[i] != 0
    ensures n < |line| ==> line[n] == 0
  {
    if line == [] || line[0] == 0 then 0 else 1 + Tiles(line[1..])
  }

  lemma {:induction false} ZerosFrom(line: seq<u16>, n: nat, i: nat)
    requires Settled(line) && n <= i < |line| && line[n] == 0
    ensures line[i] == 0
  {
    if n < i {
      ZerosFrom(line, n, i - 1);
    }
  }

  lemma FixedIsSettled(line: seq<u16>)
    requires Collapse(line) == line
    ensures Settled(line)
  {
    hide Compact, Merge;
    var compact, merged, n := Compact(line), Merge(Compact(line)), |Merge(Compact(line))|;
    CompactFacts(line);
    MergeNoZero(compact);
    CompactPacked(merged, |line| - n);
    assert compact == merged;
    MergeShortens(compact);
    forall i | 0 < i < |line|
      ensures (line[i - 1] == 0 ==> line[i] == 0) && (line[i - 1] != 0 ==> line[i - 1] != line[i])
    {
      if i < n {
        assert merged[i - 1] != merged[i];
      }
    }
  }

  lemma SettledIsFixed(line: seq<u16>)
    requires Settled(line)
    ensures Collapse(line) == line
  {
    hide Compact, Merge, Tiles;
    var n := Tiles(line);
    var x := line[..n];
    var z := ZeroTiles(|line| - n);
    assert line == x + z by {
      forall i | n <= i < |line|
        ensures line[i] == 0
      {
        ZerosFrom(line, n, i);
      }
    }
    assert NoZero(x) && NoEqualNeighbours(x);
    CompactPacked(x, |line| - n);
    MergeShortens(x);
  }

  /** The lines a move leaves alone are exactly the settled ones. */
  lemma CollapseFixesSettled(line: seq<u16>)
    ensures Collapse(line) == line <==> Settled(line)
  {
    hide Collapse, Settled;
    if Collapse(line) == line {
      FixedIsSettled(line);
    }
    if Settled(line) {
      SettledIsFixed(line);
    }
  }

  /** A line that changes has room afterwards. */
  lemma ChangedLineHasRoom(line: seq<u16>)
    requires Collapse(line) != line
    ensures line != [] && Collapse(line)[|line| - 1] == 0
  {
    CompactFacts(line);
    MergeShortens(Compact(line));
  }

  datatype Motion = Motion(from: nat, to: nat, value: u16, merged: bool)

  /** Offsets of the tiles of a line from offset `i` on. */
  function Sources(line: seq<u16>, i: nat): (r: seq<nat>)
    requires i <= |line|
    ensures forall k :: 0 <= k < |r| ==> i <= r[k] < |line| && line[r[k]] != 0
    ensures forall j, k :: 0 <= j < k < |r| ==> r[j] < r[k]
    decreases |line| - i
  {
    if i == |line| then []
    else if line[i] != 0 then [i] + Sources(line, i + 1)
    else Sources(line, i + 1)
  }

  /** The motions of the tiles at `sources`, the first of which lands at `destination`. */
  function Motions(line: seq<u16>, sources: seq<nat>, destination: nat): seq<Motion>
    requires forall k :: 0 <= k < |sources| ==> sources[k] < |line|
  {
    if sources == [] then []
    else
      var v := line[sources[0]];
      if |sources| >= 2 && line[sources[1]] == v then
        [Motion(sources[0], destination, v, true), Motion(sources[1], destination, v, true)]
        + Motions(line, sources[2..], destination + 1)
      else [Motion(sources[0], destination, v, false)] + Motions(line, sources[1..], destination + 1)
  }

  /** The tiles at some offsets. */
  function At(line: seq<u16>, sources: seq<nat>): (t: seq<u16>)
    requires forall k :: 0 <= k < |sources| ==> sources[k] < |line|
    ensures |t| == |sources|
  {
    seq(|sources|, k requires 0 <= k < |sources| => line[sources[k]])
  }

  lemma {:induction false} TilesAtSources(line: seq<u16>, i: nat)
    requires i <= |line|
    ensures At(line, Sources(line, i)) == Compact(line[i..])
    ensures forall c :: i <= c < |line| && line[c] != 0 ==> c in Sources(line, i)
    decreases |line| - i
  {
    if i < |line| {
      TilesAtSources(line, i + 1);
      assert line[i..][1..] == line[i + 1..];
      assert line[i] != 0 ==> At(line, [i] + Sources(line, i + 1)) == [line[i]] + At(line, Sources(line, i + 1));
    }
  }

  /** The tiles that land on `cell`, and what their landing makes of it. */
  function Landing(ms: seq<Motion>, cell: nat): seq<Motion> {
    if ms == [] then []
    else (if ms[0].to == cell then [ms[0]] else []) + Landing(ms[1..], cell)
  }

  function Landed(ms: seq<Motion>): u16 {
    if ms == [] then 0 else if |ms| == 1 then ms[0].value else Doubled(ms[0].value)
  }

  /** One tile lands alone and unmerged, or two equal ones land together and merge. */
  predicate LandsWell(ms: seq<Motion>) {
    || ms == [] || (|ms| == 1 && !ms[0].merged)
    || (|ms| == 2 && ms[0].merged && ms[1].merged && ms[0].value == ms[1].value)
  }

  lemma {:induction false} LandingAppend(a: seq<Motion>, b: seq<Motion>, cell: nat)
    ensures Landing(a + b, cell) == Landing(a, cell) + Landing(b, cell)
  {
    if a == [] {
      assert a + b == b;
    } else {
      assert (a + b)[1..] == a[1..] + b;
      LandingAppend(a[1..], b, cell);
    }
  }

  /** How many tiles the first motion step takes. */
  function Step(line: seq<u16>, sources: seq<nat>): (n: nat)
    requires sources != [] && forall k :: 0 <= k < |sources| ==> sources[k] < |line|
    ensures 1 <= n <= |sources|
  {
    if |sources| >= 2 && line[sources[1]] == line[sources[0]] then 2 else 1
  }

  lemma MotionsUnfold(line: seq<u16>, sources: seq<nat>, destination: nat)
    requires sources != [] && forall k :: 0 <= k < |sources| ==> sources[k] < |line|
    ensures
      var v, n := line[sources[0]], Step(line, sources);
      var rest := Motions(line, sources[n..], destination + 1);
      var merged := Merge(At(line, sources[n..]));
      && Motions(line, sources, destination) ==
           (if n == 2 then [Motion(sources[0], destination, v, true), Motion(sources[1], destination, v, true)]
            else [Motion(sources[0], destination, v, false)]) + rest
      && Merge(At(line, sources)) == [if n == 2 then Doubled(v) else v] + merged
  {
    var n := Step(line, sources);
    assert At(line, sources)[n..] == At(line, sources[n..]);
  }

  /** The motions of a line start at its tiles, one each and in order. */
  lemma {:induction false} MotionsStart(line: seq<u16>, sources: seq<nat>, destination: nat, k: nat)
    requires forall k :: 0 <= k < |sources| ==> sources[k] < |line|
    ensures |Motions(line, sources, destination)| == |sources|
    ensures k < |sources| ==>
      var m := Motions(line, sources, destination)[k];
      && m.from == sources[k] && m.value == line[sources[k]]
      && destination <= m.to < destination + |Merge(At(line, sources))|
  {
    hide Motions, Merge, At;
    if sources != [] {
      var n := Step(line, sources);
      MotionsUnfold(line, sources, destination);
      MotionsStart(line, sources[n..], destination + 1, if k < n then 0 else k - n);
    } else {
      NothingMoves(line, destination);
    }
  }

  /** What lands on a cell makes the tile that merging puts there. */
  lemma {:induction false} LandingMakesTile(line: seq<u16>, sources: seq<nat>, destination: nat, cell: nat)
    requires forall k :: 0 <= k < |sources| ==> sources[k] < |line|
    ensures
      var landing := Landing(Motions(line, sources, destination), cell);
      var merged := Merge(At(line, sources));
      && LandsWell(landing)
      && Landed(landing) ==
           (if destination <= cell < destination + |merged| then merged[cell - destination] else 0)
      && (landing == [] <==> !(destination <= cell < destination + |merged|))
  {
    hide Motions, Merge, At;
    if sources == [] {
      NothingMoves(line, destination);
    } else {
      var n, v := Step(line, sources), line[sources[0]];
      var rest := Motions(line, sources[n..], destination + 1);
      MotionsUnfold(line, sources, destination);
      LandingMakesTile(line, sources[n..], destination + 1, cell);
      if n == 2 {
        LandingOfTwo(Motion(sources[0], destination, v, true), Motion(sources[1], destination, v, true), rest, cell);
      } else {
        LandingOfOne(Motion(sources[0], destination, v, false), rest, cell);
      }
    }
  }

  lemma NothingMoves(line: seq<u16>, destination: nat)
    ensures Motions(line, [], destination) == [] && Merge(At(line, [])) == []
  {
  }

  lemma LandingOfOne(m: Motion, rest: seq<Motion>, cell: nat)
    ensures Landing([m] + rest, cell) == (if m.to == cell then [m] else []) + Landing(rest, cell)
  {
    assert ([m] + rest)[1..] == rest;
  }

  lemma LandingOfTwo(m: Motion, n: Motion, rest: seq<Motion>, cell: nat)
    requires m.to == n.to
    ensures Landing([m, n] + rest, cell) == (if m.to == cell then [m, n] else []) + Landing(rest, cell)
  {
    assert [m, n] + rest == [m] + ([n] + rest);
    LandingOfOne(m, [n] + rest, cell);
    LandingOfOne(n, rest, cell);
  }

  lemma MaskUnfold(line: seq<u16>, sources: seq<nat>)
    requires sources != [] && forall k :: 0 <= k < |sources| ==> sources[k] < |line|
    ensures
      var n := Step(line, sources);
      MergeMask(At(line, sources)) == (if n == 2 then 1 else 0) + 2 * MergeMask(At(line, sources[n..]))
  {
    var n := Step(line, sources);
    assert At(line, sources)[n..] == At(line, sources[n..]);
  }

  /** The merge mask marks exactly the places where two motions land. */
  lemma {:induction false} MaskMarksMerges(line: seq<u16>, sources: seq<nat>, destination: nat, k: nat)
    requires forall j :: 0 <= j < |sources| ==> sources[j] < |line|
    ensures Bit(MergeMask(At(line, sources)), k) <==> |Landing(Motions(line, sources, destination), destination + k)| == 2
  {
    hide Motions, MergeMask, At, Landing;
    var mask := MergeMask(At(line, sources));
    if sources == [] {
      NoMask(line, k);
      NothingMoves(line, destination);
      LandingOfNone(destination + k);
    } else {
      var n, v := Step(line, sources), line[sources[0]];
      var rest := Motions(line, sources[n..], destination + 1);
      MotionsUnfold(line, sources, destination);
      MaskUnfold(line, sources);
      LandingMakesTile(line, sources[n..], destination + 1, destination + k);
      if n == 2 {
        LandingOfTwo(Motion(sources[0], destination, v, true), Motion(sources[1], destination, v, true), rest, destination + k);
      } else {
        LandingOfOne(Motion(sources[0], destination, v, false), rest, destination + k);
      }
      if k > 0 {
        MaskMarksMerges(line, sources[n..], destination + 1, k - 1);
        assert mask / 2 == MergeMask(At(line, sources[n..]));
      }
    }
  }

  lemma LandingOfNone(cell: nat)
    ensures Landing([], cell) == []
  {
  }

  lemma {:induction false} NoMask(line: seq<u16>, k: nat)
    ensures !Bit(MergeMask(At(line, [])), k)
  {
    if k > 0 {
      NoMask(line, k - 1);
    }
  }
}
