/** The payload store: a release is built under a temporary name, file by file, and renamed into place
    when it is complete. Power may be lost between any two steps. */
module Staging {
  import opened Bytes
  import opened Text
  import opened Package
  import opened Paths
  import opened ReleaseState

  datatype InstalledFile = InstalledFile(bytes: seq<byte>, mode: u16)

  /** The files and directories below a release, by their paths. */
  datatype Tree = Tree(files: map<seq<byte>, InstalledFile>, directories: set<seq<byte>>)

  const EMPTY_TREE: Tree := Tree(map[], {})

  /** One directory under an application's `releases`, with the copy of its package and the marker. */
  datatype ReleaseDir = ReleaseDir(tree: Tree, package: Option<seq<byte>>, marker: Option<Digest>)

  const PACKAGE_NAME: seq<byte> :=
    [0x2e, 0x70, 0x61, 0x63, 0x6b, 0x61, 0x67, 0x65, 0x2e, 0x6c, 0x76, 0x61, 0x70, 0x70]
  const MARKER_NAME: seq<byte> :=
    [0x2e, 0x70, 0x61, 0x63, 0x6b, 0x61, 0x67, 0x65, 0x2e, 0x73, 0x68, 0x61, 0x35, 0x31, 0x32]

  type Key = (seq<byte>, u64)

  /** The releases as a running system sees them. Those in `unsynced` were renamed into place without the
      directories above having been synced since, and power loss may take them away. */
  datatype ReleaseStore = ReleaseStore(visible: map<Key, ReleaseDir>, unsynced: set<Key>)

  datatype StageStatus =
    | Committed | AlreadyPresent | Collision | InvalidArgument | NotAuthenticated
    | RangeInvalid | IoFailed | PowerLost

  /** The operation, counted from zero, that does not succeed, and whether it is a power loss.
      Operations: random name, stage directory, each file, package copy, marker, rename, sync. */
  datatype StageEnv = StageEnv(stop: nat, powerLoss: bool)

  function Stopped(env: StageEnv): StageStatus {
    if env.powerLoss then PowerLost else IoFailed
  }

  predicate SafeComponent(s: seq<byte>) {
    && 0 < |s| <= 128 && s != [DOT] && s != [DOT, DOT]
    && forall i :: 0 <= i < |s| ==> Ordinary(s[i]) || s[i] == DOT || s[i] == DASH
  }

  /** Enters or makes the directories on the way to a path, from component `k` on. */
  function WithDirectories(t: Tree, components: seq<seq<byte>>, k: nat): (bool, Tree)
    requires k >= 1
    decreases |components| - k
  {
    if k >= |components| then (true, t)
    else if components[k - 1] == [] || Place(components, k) in t.files then (false, t)
    else WithDirectories(t.(directories := t.directories + {Place(components, k)}), components, k + 1)
  }

  /** The tree after creating a file that must not exist yet, and whether that succeeds. */
  function AfterCreate(t: Tree, path: seq<byte>, f: InstalledFile): (bool, Tree) {
    var components := Components(path);
    if components == [] then (false, t)
    else
      var (ok, entered) := WithDirectories(t, components, 1);
      var target := Place(components, |components|);
      if !ok then (false, entered)
      else if components[|components| - 1] == [] || target in entered.files || target in entered.directories
      then (false, entered)
      else (true, entered.(files := entered.files[target := f]))
  }

  /** The file loop from file `i` on: the tree it leaves, and its result unless every file is written. */
  function FilesFrom(v: Verification, package: seq<byte>, i: nat, t: Tree, env: StageEnv)
    : (r: (Option<StageStatus>, Tree))
    requires v.payloadStart <= |package| && i <= |v.manifest.files|
    ensures r.0.Some? ==> r.0.value in {RangeInvalid, IoFailed, PowerLost}
    decreases |v.manifest.files| - i
  {
    var files := v.manifest.files;
    if i == |files| then (None, t)
    else if !RangeOk(files[i], package, v.payloadStart) then (Some(RangeInvalid), t)
    else if env.stop == 2 + i then (Some(Stopped(env)), t)
    else
      var (ok, next) := AfterCreate(t, files[i].path, FileOf(files[i], package, v.payloadStart));
      if !ok then (Some(IoFailed), next) else FilesFrom(v, package, i + 1, next, env)
  }

  function FileOf(f: File, package: seq<byte>, payloadStart: nat): InstalledFile
    requires payloadStart <= |package| && RangeOk(f, package, payloadStart)
  {
    InstalledFile(Content(f, package, payloadStart), f.mode)
  }

  predicate Occupied(t: Tree, name: seq<byte>) { name in t.files || name in t.directories }

  /** Syncing the directories of an application. */
  function Synced(unsynced: set<Key>, appId: seq<byte>): set<Key> {
    set k | k in unsynced && k.0 != appId
  }

  /** Renaming the finished release into place, and syncing. */
  function Renamed(store: ReleaseStore, key: Key, dir: ReleaseDir, synced: bool): ReleaseStore {
    ReleaseStore(store.visible[key := dir],
      if synced then Synced(store.unsynced, key.0) else store.unsynced + {key})
  }

  /** The store after staging, and the status. */
  function Staged(store: ReleaseStore, package: seq<byte>, v: Verification, digest: Digest, env: StageEnv)
    : (ReleaseStore, StageStatus)
  {
    var m := v.manifest;
    var key := (m.appId, m.releaseCounter);
    var n := |m.files|;
    if package == [] || !SafeComponent(m.appId) || m.releaseCounter == 0 then (store, InvalidArgument)
    else if !Authenticated(v) then (store, StageStatus.NotAuthenticated)
    else if v.payloadStart > |package| then (store, InvalidArgument)
    else if key in store.visible then
      (store, if store.visible[key].package == Some(package) && store.visible[key].marker == Some(digest)
              then AlreadyPresent else Collision)
    else if env.stop < 2 then (store, Stopped(env))
    else
      var (stop, tree) := FilesFrom(v, package, 0, EMPTY_TREE, env);
      if stop.Some? then (store, stop.value)
      else if env.stop == n + 2 then (store, Stopped(env))
      else if Occupied(tree, PACKAGE_NAME) then (store, IoFailed)
      else if env.stop == n + 3 then (store, Stopped(env))
      else if Occupied(tree, MARKER_NAME) then (store, IoFailed)
      else if env.stop == n + 4 then (store, Stopped(env))
      else
        (Renamed(store, key, ReleaseDir(tree, Some(package), Some(digest)), env.stop != n + 5),
         if env.stop == n + 5 then Stopped(env) else Committed)
  }

  /** The payload store, changed step by step; interrupted stages stay behind under their own names. */
  class PayloadStore {
    var store: ReleaseStore
    var stages: seq<ReleaseDir>

    constructor ()
      ensures store == ReleaseStore(map[], {}) && stages == []
    {
      store, stages := ReleaseStore(map[], {}), [];
    }

    /** Makes the directories of a path one by one and creates the file at its end. */
    static method CreateFile(t: Tree, path: seq<byte>, f: InstalledFile) returns (ok: bool, r: Tree)
      ensures (ok, r) == AfterCreate(t, path, f)
    {
      var components := SplitPath(path);
      r := t;
      if components == [] {
        return false, r;
      }
      for k := 1 to |components|
        invariant WithDirectories(r, components, k) == WithDirectories(t, components, 1)
      {
        var place := Place(components, k);
        if components[k - 1] == [] || place in r.files {
          return false, r;
        }
        r := r.(directories := r.directories + {place});
      }
      var target := Place(components, |components|);
      if components[|components| - 1] == [] || target in r.files || target in r.directories {
        return false, r;
      }
      r := r.(files := r.files[target := f]);
      ok := true;
    }

    /** Writes the files of a package one by one into a tree. */
    static method FillStage(package: seq<byte>, v: Verification, env: StageEnv)
      returns (stop: Option<StageStatus>, tree: Tree)
      requires v.payloadStart <= |package|
      ensures (stop, tree) == FilesFrom(v, package, 0, EMPTY_TREE, env)
    {
      hide AfterCreate;
      var files := v.manifest.files;
      tree := EMPTY_TREE;
      for index := 0 to |files|
        invariant FilesFrom(v, package, index, tree, env) == FilesFrom(v, package, 0, EMPTY_TREE, env)
      {
        var file := files[index];
        if !RangeOk(file, package, v.payloadStart) {
          return Some(RangeInvalid), tree;
        }
        if env.stop == 2 + index {
          return Some(Stopped(env)), tree;
        }
        var ok, next := CreateFile(tree, file.path, FileOf(file, package, v.payloadStart));
        tree := next;
        if !ok {
          return Some(IoFailed), tree;
        }
      }
      stop := None;
    }

    /** Completes a stage directory and renames it into place. */
    method Stage(package: seq<byte>, v: Verification, digest: Digest, env: StageEnv) returns (status: StageStatus)
      modifies this
      ensures (store, status) == Staged(old(store), package, v, digest, env)
    {
      hide FilesFrom, Occupied, Synced;
      var m := v.manifest;
      if package == [] || !SafeComponent(m.appId) || m.releaseCounter == 0 {
        return InvalidArgument;
      }
      if !Authenticated(v) {
        return StageStatus.NotAuthenticated;
      }
      if v.payloadStart > |package| {
        return InvalidArgument;
      }
      var key := (m.appId, m.releaseCounter);
      if key in store.visible {
        var matches := store.visible[key].package == Some(package) && store.visible[key].marker == Some(digest);
        return if matches then AlreadyPresent else Collision;
      }
      if env.stop < 2 {
        return Stopped(env);
      }
      var stop, tree := FillStage(package, v, env);
      var stage := ReleaseDir(tree, None, None);
      if stop.Some? || env.stop == |m.files| + 2 || Occupied(tree, PACKAGE_NAME) {
        stages := stages + [stage];
        return if stop.Some? then stop.value else if env.stop == |m.files| + 2 then Stopped(env) else IoFailed;
      }
      stage := stage.(package := Some(package));
      if env.stop == |m.files| + 3 || Occupied(tree, MARKER_NAME) {
        stages := stages + [stage];
        return if env.stop == |m.files| + 3 then Stopped(env) else IoFailed;
      }
      stage := stage.(marker := Some(digest));
      if env.stop == |m.files| + 4 {
        stages := stages + [stage];
        return Stopped(env);
      }
      store := Renamed(store, key, stage, env.stop != |m.files| + 5);
      status := if env.stop == |m.files| + 5 then Stopped(env) else Committed;
    }
  }

  /** The path takes the place of the package copy or of the marker. */
  predicate Intrudes(p: seq<byte>) {
    p == PACKAGE_NAME || Above(PACKAGE_NAME, p) || p == MARKER_NAME || Above(MARKER_NAME, p)
  }

  /** The files of a package can live beside each other and beside the package copy. */
  predicate Compatible(files: seq<File>) {
    && (forall i, j :: 0 <= i < j < |files| ==> !Clash(files[i].path, files[j].path))
    && forall i :: 0 <= i < |files| ==> !Intrudes(files[i].path)
  }

  lemma {:induction false} DirectoriesExactly(t: Tree, components: seq<seq<byte>>, k: nat)
    requires 1 <= k && forall i :: 0 <= i < |components| ==> components[i] != []
    ensures
      var (ok, r) := WithDirectories(t, components, k);
      && r.files == t.files
      && (ok <==> forall m :: k <= m < |components| ==> Place(components, m) !in t.files)
      && (ok ==> forall d :: d in r.directories <==>
            d in t.directories || exists m :: k <= m < |components| && Place(components, m) == d)
    decreases |components| - k
  {
    hide Place;
    if k < |components| && Place(components, k) !in t.files {
      DirectoriesExactly(t.(directories := t.directories + {Place(components, k)}), components, k + 1);
    }
  }

  /** The tree holds exactly the first `n` files and the directories above them. */
  ghost predicate Reflects(t: Tree, files: seq<File>, n: nat)
    requires n <= |files|
  {
    && (forall p :: p in t.files <==> exists j :: 0 <= j < n && files[j].path == p)
    && (forall d :: d in t.directories <==> exists j :: 0 <= j < n && Above(d, files[j].path))
  }

  lemma DirectoriesOfPath(t: Tree, path: seq<byte>)
    requires ValidPath(path)
    ensures
      var (ok, r) := WithDirectories(t, Components(path), 1);
      && r.files == t.files
      && (ok <==> forall d :: d in t.files ==> !Above(d, path))
      && (ok ==> forall d :: d in r.directories <==> d in t.directories || Above(d, path))
  {
    ValidPathPlaces(path);
    hide Place, Above, ValidPath, Split, Components;
    var components := Components(path);
    DirectoriesExactly(t, components, 1);
    forall d
      ensures Above(d, path) <==> exists m :: 1 <= m < |components| && Place(components, m) == d
    {
      if Above(d, path) {
        var m := AboveIsPlace(path, d);
      }
      if m :| 1 <= m < |components| && Place(components, m) == d {
        PlaceIsAbove(path, m);
      }
    }
  }

  lemma NotAboveItself(p: seq<byte>)
    ensures !Above(p, p)
  {
  }

  /** Creating the next file succeeds exactly when it clashes with none of the files before. */
  lemma CreateExactly(t: Tree, files: seq<File>, n: nat, f: InstalledFile)
    requires n < |files| && Reflects(t, files, n) && ValidPath(files[n].path)
    ensures
      var (ok, r) := AfterCreate(t, files[n].path, f);
      && (ok <==> forall j :: 0 <= j < n ==> !Clash(files[j].path, files[n].path))
      && (ok ==> Reflects(r, files, n + 1) && r.files == t.files[files[n].path := f])
  {
    var path := files[n].path;
    ValidPathPlaces(path);
    DirectoriesOfPath(t, path);
    NotAboveItself(path);
    hide Above, Place, ValidPath, Split, Components, WithDirectories;
    var (ok, entered) := WithDirectories(t, Components(path), 1);
    assert ok <==> forall j :: 0 <= j < n ==> !Above(files[j].path, path);
    assert path in t.files <==> exists j :: 0 <= j < n && files[j].path == path;
    assert path in t.directories <==> exists j :: 0 <= j < n && Above(path, files[j].path);
  }

  lemma NothingReflected(files: seq<File>)
    ensures Reflects(EMPTY_TREE, files, 0)
  {
  }

  /** The file loop writes every file exactly when nothing in the environment stops it and no two paths
      clash. */
  lemma {:induction false} FilesExactly(v: Verification, package: seq<byte>, i: nat, t: Tree, env: StageEnv)
    requires v.payloadStart <= |package| && i <= |v.manifest.files| && Reflects(t, v.manifest.files, i)
    requires ValidPaths(v.manifest.files)
    requires forall k :: 0 <= k < |v.manifest.files| ==> RangeOk(v.manifest.files[k], package, v.payloadStart)
    ensures
      var files := v.manifest.files;
      var (stop, tree) := FilesFrom(v, package, i, t, env);
      var stopped := 2 + i <= env.stop < 2 + |files|;
      var clash := exists k, j :: 0 <= j < k < |files| && i <= k && Clash(files[j].path, files[k].path);
      && (stop.None? <==> !stopped && !clash)
      && (stop.Some? ==> stop.value == IoFailed || (stopped && stop.value == Stopped(env)))
      && (!clash && stopped ==> stop == Some(Stopped(env)))
      && (stop.None? ==> Reflects(tree, files, |files|))
    decreases |v.manifest.files| - i
  {
    hide Clash, Reflects, ValidPath, AfterCreate;
    var files := v.manifest.files;
    if i < |files| && env.stop != 2 + i {
      var f := FileOf(files[i], package, v.payloadStart);
      CreateExactly(t, files, i, f);
      if AfterCreate(t, files[i].path, f).0 {
        FilesExactly(v, package, i + 1, AfterCreate(t, files[i].path, f).1, env);
      }
    }
  }

  lemma OccupiedExactly(t: Tree, files: seq<File>)
    requires Reflects(t, files, |files|)
    ensures Occupied(t, PACKAGE_NAME) || Occupied(t, MARKER_NAME) <==> exists i :: 0 <= i < |files| && Intrudes(files[i].path)
  {
    hide Above;
  }

  /** Staging a verified package succeeds exactly when nothing in the environment stops it and its files
      are compatible: no path names a directory above another, and none takes the place of the package
      copy or the marker. Incompatible files are never staged, whatever the environment does. */
  lemma StagingExactly(store: ReleaseStore, package: seq<byte>, v: Verification, digest: Digest, env: StageEnv)
    requires package != [] && SafeComponent(v.manifest.appId) && v.manifest.releaseCounter != 0 && Authenticated(v)
    requires Stageable(v, package) && ValidPaths(v.manifest.files)
    requires (v.manifest.appId, v.manifest.releaseCounter) !in store.visible
    ensures
      var files := v.manifest.files;
      var (after, status) := Staged(store, package, v, digest, env);
      && (status == Committed <==> Compatible(files) && env.stop > |files| + 5)
      && (Compatible(files) ==> status == Committed || status == Stopped(env))
      && (!Compatible(files) ==> after == store && (status == IoFailed || status == Stopped(env)))
  {
    hide FilesFrom, Reflects, Occupied, Clash, Intrudes, ValidPath, Renamed;
    var files := v.manifest.files;
    NothingReflected(files);
    FilesExactly(v, package, 0, EMPTY_TREE, env);
    var (stop, tree) := FilesFrom(v, package, 0, EMPTY_TREE, env);
    if stop.None? {
      OccupiedExactly(tree, files);
    }
  }

  /** Every file written is found at its path with its bytes and mode, and nothing already there is lost. */
  lemma {:induction false} FilesAreThere(
    v: Verification, package: seq<byte>, i: nat, t: Tree, env: StageEnv, k: nat, p: seq<byte>)
    requires v.payloadStart <= |package| && i <= |v.manifest.files| && Reflects(t, v.manifest.files, i)
    requires ValidPaths(v.manifest.files) && FilesFrom(v, package, i, t, env).0.None?
    ensures
      var files, tree := v.manifest.files, FilesFrom(v, package, i, t, env).1;
      && (i <= k < |files| ==>
            && RangeOk(files[k], package, v.payloadStart)
            && files[k].path in tree.files && tree.files[files[k].path] == FileOf(files[k], package, v.payloadStart)
            && forall j :: 0 <= j < k ==> !Clash(files[j].path, files[k].path))
      && (p in t.files ==> p in tree.files && tree.files[p] == t.files[p])
    decreases |v.manifest.files| - i
  {
    hide Above, Reflects, ValidPath, AfterCreate;
    var files := v.manifest.files;
    if i < |files| {
      var f := FileOf(files[i], package, v.payloadStart);
      var next := AfterCreate(t, files[i].path, f).1;
      CreateExactly(t, files, i, f);
      FilesAreThere(v, package, i + 1, next, env, k, if k == i then files[i].path else p);
      if k == i {
        FilesAreThere(v, package, i + 1, next, env, k, p);
      }
      NotYetThere(t, files, i);
    }
  }

  lemma NotYetThere(t: Tree, files: seq<File>, i: nat)
    requires i < |files| && Reflects(t, files, i)
    ensures (forall j :: 0 <= j < i ==> !Clash(files[j].path, files[i].path)) ==> files[i].path !in t.files
  {
    hide Above;
  }

  lemma {:induction false} FilesWithoutStop(
    v: Verification, package: seq<byte>, i: nat, t: Tree, env: StageEnv, other: StageEnv)
    requires v.payloadStart <= |package| && i <= |v.manifest.files|
    requires FilesFrom(v, package, i, t, env).0.None? && other.stop >= 2 + |v.manifest.files|
    ensures FilesFrom(v, package, i, t, other) == FilesFrom(v, package, i, t, env)
    decreases |v.manifest.files| - i
  {
    hide AfterCreate;
    var files := v.manifest.files;
    if i < |files| {
      var next := AfterCreate(t, files[i].path, FileOf(files[i], package, v.payloadStart)).1;
      FilesWithoutStop(v, package, i + 1, next, env, other);
    }
  }

  /** When only the sync after the rename fails, the release is in place without being durable, and
      staging it again reports that it is already present. */
  lemma SyncFailure(store: ReleaseStore, package: seq<byte>, v: Verification, digest: Digest, env: StageEnv)
    requires (v.manifest.appId, v.manifest.releaseCounter) !in store.visible
    requires Staged(store, package, v, digest, env).1 in {Committed, AlreadyPresent}
    ensures
      var key := (v.manifest.appId, v.manifest.releaseCounter);
      var (failed, status) := Staged(store, package, v, digest, StageEnv(|v.manifest.files| + 5, false));
      && status == IoFailed && key in failed.visible && key in failed.unsynced
      && Staged(failed, package, v, digest, env) == (failed, AlreadyPresent)
  {
    hide FilesFrom, Occupied, Synced;
    FilesWithoutStop(v, package, 0, EMPTY_TREE, env, StageEnv(|v.manifest.files| + 5, false));
  }

  lemma SlashIsMember(path: seq<byte>)
    ensures IndexOf(path, SLASH) < |path| ==> SLASH in path
  {
    if IndexOf(path, SLASH) < |path| {
      assert path[IndexOf(path, SLASH)] == SLASH;
    }
  }

  lemma NoSlash(path: seq<byte>)
    requires SLASH !in path
    ensures Split(path) == [path]
  {
    SlashIsMember(path);
  }

  lemma OnePlainName(path: seq<byte>)
    requires SLASH !in path && BACKSLASH !in path && PlainName(path) && |path| <= MAXIMUM_PATH_SIZE
    ensures ValidPath(path)
  {
    NoSlash(path);
  }

  const FILE_A: seq<byte> := ['a' as int]
  const FILE_A_B: seq<byte> := ['a' as int, SLASH, 'b' as int]

  lemma SplitOfAB()
    ensures Split(FILE_A_B) == [['a' as int], ['b' as int]]
  {
    SplitFirst(FILE_A_B);
    assert FILE_A_B[0] != SLASH && FILE_A_B[1] == SLASH;
    assert IndexOf(FILE_A_B, SLASH) == 1;
    NoSlash(FILE_A_B[2..]);
    assert FILE_A_B[..1] == ['a' as int] && FILE_A_B[2..] == ['b' as int];
  }

  lemma ValidAB()
    ensures ValidPath(FILE_A_B)
  {
    SplitOfAB();
    hide Split;
    assert PlainName(['a' as int]) && PlainName(['b' as int]);
  }

  lemma ABelowA()
    ensures LexLess(FILE_A, FILE_A_B) && Clash(FILE_A, FILE_A_B)
  {
    assert FILE_A + [SLASH] <= FILE_A_B;
    assert FILE_A[1..] == [] && FILE_A_B[1..] != [];
  }

  lemma PackageNameIsPlain()
    ensures ValidPath(PACKAGE_NAME) && Intrudes(PACKAGE_NAME)
  {
    OnePlainName(PACKAGE_NAME);
  }

  /** Two files that pass verification and can never be staged together: `a`, and `a/b` below it; and one
      that can never be staged at all, the name of the package copy. */
  lemma FileBelowFile()
    ensures ValidPath(FILE_A) && ValidPath(FILE_A_B) && LexLess(FILE_A, FILE_A_B) && Clash(FILE_A, FILE_A_B)
    ensures ValidPath(PACKAGE_NAME) && Intrudes(PACKAGE_NAME)
    ensures forall files: seq<File> | |files| == 2 && files[0].path == FILE_A && files[1].path == FILE_A_B ::
      ValidPaths(files) && !Compatible(files)
    ensures forall files: seq<File> | |files| == 1 && files[0].path == PACKAGE_NAME ::
      ValidPaths(files) && !Compatible(files)
  {
    hide ValidPath, Clash, Intrudes;
    OnePlainName(FILE_A);
    ValidAB();
    ABelowA();
    PackageNameIsPlain();
  }

  /** The package copy and the marker by their names. */
  lemma NamesMean()
    ensures Spells(PACKAGE_NAME, ".package.lvapp") && Spells(MARKER_NAME, ".package.sha512")
  {
  }

  /** One to 128 lower-case letters, digits, dots and dashes, but not the names of this directory or the one above. */
  lemma SafeComponentMeans(s: seq<byte>)
    ensures SafeComponent(s) <==>
      && 1 <= |s| <= 128 && !Spells(s, ".") && !Spells(s, "..")
      && forall i :: 0 <= i < |s| ==> 97 <= s[i] <= 122 || 48 <= s[i] <= 57 || s[i] == 45 || s[i] == 46
  {
    if |s| == 1 {
      assert s == [s[0]];
    }
    if |s| == 2 {
      assert s == [s[0], s[1]];
    }
  }

  /** A file outside the package stops the file loop at that file, and is reported as such. */
  lemma OutOfRangeStops(v: Verification, package: seq<byte>, i: nat, t: Tree, env: StageEnv)
    requires v.payloadStart <= |package| && i < |v.manifest.files|
    ensures
      var f := v.manifest.files[i];
      v.payloadStart + f.offset + f.size > |package| ==> FilesFrom(v, package, i, t, env) == (Some(RangeInvalid), t)
  {
    hide AfterCreate;
  }
}
