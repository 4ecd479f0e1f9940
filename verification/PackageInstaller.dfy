/** Installing a package: stage the payload, then commit the policy; and rolling back. Power may be lost
    between any two steps, and takes with it what was not synced. */
module PackageInstaller {
  import opened Bytes
  import opened Text
  import opened Package
  import opened Paths
  import opened ReleaseState
  import opened ReleaseLifecycle
  import opened RollbackPolicy
  import opened Staging
  import Disk = StateStore

  /** Verification and hashing, as deterministic functions of the package bytes. */
  datatype Crypto = Crypto(
    verify: seq<byte> -> Verification, sha512: seq<byte> -> Option<Digest>, sha256: Sha256)

  /** A verified package has acceptable paths, and hashes have their size. */
  ghost predicate Trusted(crypto: Crypto) {
    && Available(crypto.sha256)
    && forall package :: crypto.verify(package).verified ==> ValidPaths(crypto.verify(package).manifest.files)
  }

  type Policies = map<seq<byte>, Disk.Disk>

  /** The payload store and, for every application, the store of its release state. */
  datatype Storage = Storage(releases: ReleaseStore, policies: Policies)

  const EMPTY_STORAGE: Storage := Storage(ReleaseStore(map[], {}), map[])

  datatype InstallStatus =
    | Installed | AlreadyInstalled | InstalledDegraded | TrustRejected | DigestFailed
    | StateUnavailable | PolicyRejected | StorageFailed | TransitionFailed | CommitFailed | LostPower

  function PolicyOf(d: Storage, appId: seq<byte>): Disk.Disk {
    if appId in d.policies then d.policies[appId] else Disk.Settled(Disk.Absent)
  }

  /** What an installation is refused for before anything is written. */
  ghost function Examined(
    d: Storage, package: seq<byte>, context: Context, crypto: Crypto, faults: Disk.Faults): Option<InstallStatus>
  {
    var v := crypto.verify(package);
    var appId := v.manifest.appId;
    var hash := crypto.sha512(package);
    if !v.verified then Some(TrustRejected)
    else if hash.None? then Some(DigestFailed)
    else
      var (status, current) := Disk.LoadFaulty(PolicyOf(d, appId).visible, appId, crypto.sha256, faults);
      if current.None? && status != Disk.NotFound then Some(StateUnavailable)
      else
        var mark := if current.Some? then Some(HighWaterOf(current.value)) else None;
        if Evaluate(v, hash.value, context, mark) != Allowed then Some(PolicyRejected) else None
  }

  /** The storage after an installation, and the status reported. */
  ghost function Install(
    d: Storage, package: seq<byte>, context: Context, crypto: Crypto,
    faults: Disk.Faults, stageEnv: StageEnv, persistEnv: Disk.PersistEnv): (Storage, InstallStatus)
  {
    var refusal := Examined(d, package, context, crypto, faults);
    if refusal.Some? then (d, refusal.value)
    else
      var v, digest := crypto.verify(package), crypto.sha512(package).value;
      var policy := PolicyOf(d, v.manifest.appId);
      var current := Disk.LoadFaulty(policy.visible, v.manifest.appId, crypto.sha256, faults).1;
      var (staged, storage) := Staged(d.releases, package, v, digest, stageEnv);
      var kept := d.(releases := staged);
      if storage == PowerLost then (kept, LostPower)
      else if storage != Committed && storage != AlreadyPresent then (kept, StorageFailed)
      else
        var next := Activation(v, digest, current);
        if next.None? then (kept, TransitionFailed)
        else
          var (after, result) := Disk.Persisted(policy, next.value, crypto.sha256, persistEnv);
          var repeated := storage == AlreadyPresent && current.Some?
            && current.value.generation == next.value.generation;
          (kept.(policies := d.policies[v.manifest.appId := after]), Reported(result, repeated))
  }

  function Reported(result: Option<Disk.StoreStatus>, repeated: bool): InstallStatus {
    if result.None? then LostPower
    else if result.value == Disk.WrittenDegraded then InstalledDegraded
    else if result.value != Disk.Written then CommitFailed
    else if repeated then AlreadyInstalled else Installed
  }

  const RESERVED_PLATFORM: seq<byte> :=
    [0x74, 0x6f, 0x70, 0x2e, 0x6c, 0x76, 0x67, 0x6c, 0x2e, 0x70, 0x6c, 0x61, 0x74, 0x66, 0x6f, 0x72, 0x6d]
  const RESERVED_DESKTOP: seq<byte> :=
    [0x74, 0x6f, 0x70, 0x2e, 0x6c, 0x76, 0x67, 0x6c, 0x2e, 0x64, 0x65, 0x73, 0x6b, 0x74, 0x6f, 0x70]
  const RESERVED_INSTALLER: seq<byte> :=
    [0x74, 0x6f, 0x70, 0x2e, 0x6c, 0x76, 0x67, 0x6c, 0x2e, 0x69, 0x6e, 0x73, 0x74, 0x61, 0x6c, 0x6c, 0x65, 0x72]

  /** The identifiers the platform keeps for itself. */
  predicate Reserved(appId: seq<byte>) {
    appId == RESERVED_PLATFORM || appId == RESERVED_DESKTOP || appId == RESERVED_INSTALLER
  }

  /** The installed file of a manifest entry is there, with its bytes and mode. */
  predicate FileMatches(dir: ReleaseDir, f: File, package: seq<byte>, payloadStart: nat)
    requires payloadStart <= |package|
  {
    && RangeOk(f, package, payloadStart) && f.path in dir.tree.files
    && dir.tree.files[f.path] == FileOf(f, package, payloadStart)
  }

  /** What an installed release must be to be started or rolled back to, apart from compatibility. */
  predicate ReleaseGenuine(
    releases: map<Key, ReleaseDir>, appId: seq<byte>, counter: u64, digest: Digest, keyId: seq<byte>, crypto: Crypto)
  {
    && (appId, counter) in releases
    && var dir := releases[(appId, counter)];
    && dir.package.Some?
    && var package := dir.package.value;
    && var v := crypto.verify(package);
    && Authenticated(v) && crypto.sha512(package) == Some(digest)
    && v.manifest.appId == appId && v.manifest.releaseCounter == counter && v.manifest.keyId == keyId
    && v.payloadStart <= |package|
    && forall i :: 0 <= i < |v.manifest.files| ==> FileMatches(dir, v.manifest.files[i], package, v.payloadStart)
  }

  /** The checks made on an installed release before it is started or rolled back to. */
  ghost predicate ReleaseVerifies(
    releases: map<Key, ReleaseDir>, appId: seq<byte>, counter: u64, digest: Digest, keyId: seq<byte>,
    context: Context, crypto: Crypto)
  {
    && SessionAppId(appId) && !Reserved(appId) && counter != 0 && |keyId| == 32
    && ReleaseGenuine(releases, appId, counter, digest, keyId, crypto)
    && Compatibility(crypto.verify(releases[(appId, counter)].package.value), context) == Allowed
  }

  datatype RollbackStatus = RolledBack | NotRolledBack | RollbackLostPower

  /** Rolling an application back: the previous release is verified first. */
  ghost function RollBackApplication(
    d: Storage, appId: seq<byte>, context: Context, recordFailure: bool, crypto: Crypto,
    faults: Disk.Faults, env: Disk.PersistEnv): (Storage, RollbackStatus)
  {
    var current := Disk.LoadFaulty(PolicyOf(d, appId).visible, appId, crypto.sha256, faults).1;
    if !SessionAppId(appId) || Reserved(appId) || current.None? || current.value.previous == 0
    then (d, NotRolledBack)
    else
      var s := current.value;
      if !ReleaseVerifies(d.releases.visible, appId, s.previous, s.previousDigest, s.keyId, context, crypto)
      then (d, NotRolledBack)
      else
        var next := Rollback(s, recordFailure);
        if next.None? then (d, NotRolledBack)
        else
          var (after, result) := Disk.Persisted(PolicyOf(d, appId), next.value, crypto.sha256, env);
          (d.(policies := d.policies[appId := after]),
           if result.None? then RollbackLostPower
           else if Disk.Succeeded(result) then RolledBack else NotRolledBack)
  }

  /** The device: the payload store and the policy stores, changed step by step. */
  class Device {
    const payload: PayloadStore
    var policies: Policies

    function Now(): Storage
      reads this, payload
    {
      Storage(payload.store, policies)
    }

    constructor ()
      ensures Now() == EMPTY_STORAGE && fresh(payload)
    {
      payload := new PayloadStore();
      policies := map[];
    }

    method InstallPackage(
      package: seq<byte>, context: Context, crypto: Crypto, faults: Disk.Faults, stageEnv: StageEnv,
      persistEnv: Disk.PersistEnv) returns (status: InstallStatus)
      modifies this, payload
      ensures (Now(), status) == Install(old(Now()), package, context, crypto, faults, stageEnv, persistEnv)
    {
      hide Staged, Activation, Disk.LoadFaulty, Disk.Persisted, Evaluate;
      var v := crypto.verify(package);
      if !v.verified {
        return TrustRejected;
      }
      var hash := crypto.sha512(package);
      if hash.None? {
        return DigestFailed;
      }
      var appId := v.manifest.appId;
      var policy := PolicyOf(Now(), appId);
      var (loaded, current) := Disk.LoadFaulty(policy.visible, appId, crypto.sha256, faults);
      if current.None? && loaded != Disk.NotFound {
        return StateUnavailable;
      }
      var mark := if current.Some? then Some(HighWaterOf(current.value)) else None;
      var decision := EvaluateInstallPolicy(v, hash.value, context, mark);
      if decision != Allowed {
        return PolicyRejected;
      }
      var storage := payload.Stage(package, v, hash.value, stageEnv);
      if storage == PowerLost {
        return LostPower;
      }
      if storage != Committed && storage != AlreadyPresent {
        return StorageFailed;
      }
      var next := Activation(v, hash.value, current);
      if next.None? {
        return TransitionFailed;
      }
      var store := new Disk.Store(policy);
      var result := store.Persist(next.value, crypto.sha256, persistEnv);
      policies := policies[appId := store.disk];
      if result.None? {
        return LostPower;
      }
      if result.value == Disk.WrittenDegraded {
        return InstalledDegraded;
      }
      if result.value != Disk.Written {
        return CommitFailed;
      }
      if storage == AlreadyPresent && current.Some? && current.value.generation == next.value.generation {
        return AlreadyInstalled;
      }
      status := Installed;
    }

    /** Compares every installed file with the package it came from. */
    method VerifyRelease(
      appId: seq<byte>, counter: u64, digest: Digest, keyId: seq<byte>, context: Context, crypto: Crypto)
      returns (ok: bool)
      ensures ok == ReleaseVerifies(payload.store.visible, appId, counter, digest, keyId, context, crypto)
    {
      hide Compatibility, FileOf, RangeOk;
      var valid := CheckSessionAppId(appId);
      if !valid || Reserved(appId) || counter == 0 || |keyId| != 32 {
        return false;
      }
      var releases := payload.store.visible;
      if (appId, counter) !in releases || releases[(appId, counter)].package.None? {
        return false;
      }
      var dir := releases[(appId, counter)];
      var package := dir.package.value;
      var v := crypto.verify(package);
      if !Authenticated(v) || crypto.sha512(package) != Some(digest) || v.manifest.appId != appId
        || v.manifest.releaseCounter != counter || v.manifest.keyId != keyId || v.payloadStart > |package|
      {
        return false;
      }
      for index := 0 to |v.manifest.files|
        invariant forall i :: 0 <= i < index ==> FileMatches(dir, v.manifest.files[i], package, v.payloadStart)
      {
        if !FileMatches(dir, v.manifest.files[index], package, v.payloadStart) {
          return false;
        }
      }
      var policy := EvaluateInstallPolicy(v, digest, context, None);
      ok := policy == Allowed;
    }

    method RollBackAfterFailure(
      appId: seq<byte>, context: Context, recordFailure: bool, crypto: Crypto, faults: Disk.Faults,
      env: Disk.PersistEnv) returns (status: RollbackStatus)
      modifies this`policies
      ensures (Now(), status) == RollBackApplication(old(Now()), appId, context, recordFailure, crypto, faults, env)
    {
      hide ReleaseVerifies, Rollback, Disk.LoadFaulty, Disk.Persisted;
      var valid := CheckSessionAppId(appId);
      if !valid || Reserved(appId) {
        return NotRolledBack;
      }
      var policy := PolicyOf(Now(), appId);
      var current := Disk.LoadFaulty(policy.visible, appId, crypto.sha256, faults).1;
      if current.None? || current.value.previous == 0 {
        return NotRolledBack;
      }
      var s := current.value;
      var verified := VerifyRelease(appId, s.previous, s.previousDigest, s.keyId, context, crypto);
      if !verified {
        return NotRolledBack;
      }
      var next := Rollback(s, recordFailure);
      if next.None? {
        return NotRolledBack;
      }
      var store := new Disk.Store(policy);
      var result := store.Persist(next.value, crypto.sha256, env);
      policies := policies[appId := store.disk];
      if result.None? {
        return RollbackLostPower;
      }
      status := if Disk.Succeeded(result) then RolledBack else NotRolledBack;
    }
  }

  /** A release directory under its final name is the complete directory of a package of that
      application and counter. */
  ghost predicate CompleteAt(releases: map<Key, ReleaseDir>, key: Key, crypto: Crypto) {
    && key in releases
    && var dir := releases[key];
    && dir.package.Some? && dir.marker.Some?
    && var package := dir.package.value;
    && var v := crypto.verify(package);
    && Authenticated(v) && v.manifest.appId == key.0 && v.manifest.releaseCounter == key.1
    && crypto.sha512(package) == dir.marker
    && v.payloadStart <= |package|
    && (forall i :: 0 <= i < |v.manifest.files| ==> FileMatches(dir, v.manifest.files[i], package, v.payloadStart))
    && Compatible(v.manifest.files) && Reflects(dir.tree, v.manifest.files, |v.manifest.files|)
  }

  ghost predicate AllComplete(releases: map<Key, ReleaseDir>, crypto: Crypto) {
    forall key :: key in releases ==> CompleteAt(releases, key, crypto)
  }

  /** The release `counter` is installed, complete, and is the one with `digest` and signer `keyId`. */
  ghost predicate Backs(
    releases: map<Key, ReleaseDir>, appId: seq<byte>, counter: u64, digest: Digest, keyId: seq<byte>, crypto: Crypto)
  {
    && CompleteAt(releases, (appId, counter), crypto)
    && var dir := releases[(appId, counter)];
    && dir.marker == Some(digest) && crypto.verify(dir.package.value).manifest.keyId == keyId
  }

  /** Staging adds at most the one release named, and only as a complete directory. */
  lemma StagingKeepsComplete(
    store: ReleaseStore, package: seq<byte>, v: Verification, digest: Digest, env: StageEnv, crypto: Crypto)
    requires Trusted(crypto) && AllComplete(store.visible, crypto)
    requires v == crypto.verify(package) && crypto.sha512(package) == Some(digest)
    ensures
      var m := v.manifest;
      var key := (m.appId, m.releaseCounter);
      var (after, status) := Staged(store, package, v, digest, env);
      && AllComplete(after.visible, crypto)
      && (forall k :: k in store.visible ==> k in after.visible && after.visible[k] == store.visible[k])
      && (forall k :: k in after.unsynced ==> k in store.unsynced || (k == key && k !in store.visible))
      && (status == Committed || status == AlreadyPresent ==>
            && Backs(after.visible, m.appId, m.releaseCounter, digest, m.keyId, crypto)
            && (key in after.unsynced <==> key in store.visible && key in store.unsynced))
  {
    hide CompleteAt, FilesFrom, Reflects, Compatible, FileMatches, ValidPaths;
    var m := v.manifest;
    var key := (m.appId, m.releaseCounter);
    var (after, status) := Staged(store, package, v, digest, env);
    if key !in store.visible && key in after.visible {
      StagedIsComplete(store, package, v, digest, env, crypto);
    }
    forall k | k in after.visible
      ensures CompleteAt(after.visible, k, crypto)
    {
      if k in store.visible {
        CompleteKept(store.visible, after.visible, k, crypto);
      }
    }
    if status == AlreadyPresent || status == Committed {
      CompleteBacks(after.visible, key, package, v, digest, crypto);
    }
  }

  lemma CompleteKept(releases: map<Key, ReleaseDir>, after: map<Key, ReleaseDir>, key: Key, crypto: Crypto)
    requires CompleteAt(releases, key, crypto) && key in after && after[key] == releases[key]
    ensures CompleteAt(after, key, crypto)
  {
    hide FileMatches, Reflects, Compatible;
  }

  lemma CompleteBacks(
    releases: map<Key, ReleaseDir>, key: Key, package: seq<byte>, v: Verification, digest: Digest, crypto: Crypto)
    requires CompleteAt(releases, key, crypto) && v == crypto.verify(package)
    requires releases[key].package == Some(package) && releases[key].marker == Some(digest)
    ensures Backs(releases, key.0, key.1, digest, v.manifest.keyId, crypto)
  {
    hide FileMatches, Reflects, Compatible;
  }

  lemma StagedIsComplete(
    store: ReleaseStore, package: seq<byte>, v: Verification, digest: Digest, env: StageEnv, crypto: Crypto)
    requires Trusted(crypto) && v == crypto.verify(package) && crypto.sha512(package) == Some(digest)
    requires
      var key := (v.manifest.appId, v.manifest.releaseCounter);
      key !in store.visible && key in Staged(store, package, v, digest, env).0.visible
    ensures
      var key := (v.manifest.appId, v.manifest.releaseCounter);
      CompleteAt(Staged(store, package, v, digest, env).0.visible, key, crypto)
  {
    hide FilesFrom, Reflects, Occupied, Clash, Intrudes, ValidPaths, FileOf;
    var files := v.manifest.files;
    NothingReflected(files);
    var tree := FilesFrom(v, package, 0, EMPTY_TREE, env).1;
    forall k | 0 <= k < |files|
      ensures RangeOk(files[k], package, v.payloadStart) && files[k].path in tree.files
      ensures tree.files[files[k].path] == FileOf(files[k], package, v.payloadStart)
      ensures forall j :: 0 <= j < k ==> !Clash(files[j].path, files[k].path)
    {
      FilesAreThere(v, package, 0, EMPTY_TREE, env, k, []);
    }
    FilesExactly(v, package, 0, EMPTY_TREE, env);
    OccupiedExactly(tree, files);
  }

  lemma ReservedMeans(appId: seq<byte>)
    ensures Reserved(appId) <==>
      || Spells(appId, "top.lvgl.platform") || Spells(appId, "top.lvgl.desktop")
      || Spells(appId, "top.lvgl.installer")
  {
  }

  /** The file is there with the mode and the bytes that the package gives it. */
  predicate SameFile(dir: ReleaseDir, f: File, package: seq<byte>, start: nat) {
    && start + f.offset + f.size <= |package|
    && f.path in dir.tree.files
    && dir.tree.files[f.path] == InstalledFile(package[start + f.offset..][..f.size], f.mode)
  }

  /** A release is started, or rolled back to, if and only if all of this holds: the identifier is one of a session
      and not the platform's own; the release is there with its package; the package has the digest on record, is
      signed by the official key on record, and is of this application and counter; every file it lists is installed
      with its bytes and mode; and it suits the device. */
  lemma VerifiesExactly(
    releases: map<Key, ReleaseDir>, appId: seq<byte>, counter: u64, digest: Digest, keyId: seq<byte>,
    context: Context, crypto: Crypto)
    ensures ReleaseVerifies(releases, appId, counter, digest, keyId, context, crypto) <==>
      && SessionAppId(appId) && !Spells(appId, "top.lvgl.platform") && !Spells(appId, "top.lvgl.desktop")
      && !Spells(appId, "top.lvgl.installer") && |keyId| == 32
      && (appId, counter) in releases && releases[(appId, counter)].package.Some?
      && var dir := releases[(appId, counter)];
      && var package := dir.package.value;
      && var v := crypto.verify(package);
      && crypto.sha512(package) == Some(digest)
      && v.verified && v.signatureVerified && !v.development
      && v.manifest.appId == appId && v.manifest.releaseCounter == counter && v.manifest.keyId == keyId
      && v.payloadStart <= |package|
      && (forall f :: f in v.manifest.files ==> SameFile(dir, f, package, v.payloadStart))
      && forall q: Decision :: !Violates(q, v, digest, context, None)
  {
    ReservedMeans(appId);
    hide SessionAppId, Reserved, Spells, Compatibility, Violates, FileMatches, SameFile;
    if (appId, counter) in releases && releases[(appId, counter)].package.Some? {
      var dir := releases[(appId, counter)];
      var package := dir.package.value;
      var v := crypto.verify(package);
      DecisionIsFirstViolation(v, digest, context, None);
      NoCounter(v, digest, context);
      if v.payloadStart <= |package| {
        forall f | f in v.manifest.files
          ensures FileMatches(dir, f, package, v.payloadStart) <==> SameFile(dir, f, package, v.payloadStart)
        {
          FileMatchesMeans(dir, f, package, v.payloadStart);
        }
      }
    }
  }

  lemma NoCounter(v: Verification, digest: Digest, context: Context)
    ensures v.manifest.releaseCounter == 0 ==> Violates(InvalidInput, v, digest, context, None)
  {
  }

  lemma FileMatchesMeans(dir: ReleaseDir, f: File, package: seq<byte>, start: nat)
    requires start <= |package|
    ensures FileMatches(dir, f, package, start) <==> SameFile(dir, f, package, start)
  {
    if start + f.offset + f.size <= |package| {
      assert package[start + f.offset..][..f.size] == package[start + f.offset..start + f.offset + f.size];
    }
  }
}
