/** What an installation needs and leaves behind, told from what a caller can see. */
module DeviceInstalls {
  import opened Bytes
  import opened Text
  import opened Package
  import opened ReleaseState
  import opened ReleaseLifecycle
  import opened RollbackPolicy
  import opened Staging
  import opened PackageInstaller
  import opened DeviceRuns
  import opened DeviceReleases
  import Disk = StateStore
  import Runs = StoreRuns

  function KeyOf(e: DeviceEvent, crypto: Crypto): Key
    requires e.InstallEvent?
  {
    (crypto.verify(e.package).manifest.appId, crypto.verify(e.package).manifest.releaseCounter)
  }

  /** An installation that makes the release appear. */
  ghost predicate Adds(d: Storage, e: DeviceEvent, key: Key, crypto: Crypto) {
    e.InstallEvent? && key !in d.releases.visible && key in Perform(d, e, crypto).0.releases.visible
  }

  ghost function StatusOf(d: Storage, e: DeviceEvent, crypto: Crypto): InstallStatus
    requires e.InstallEvent?
  {
    Install(d, e.package, e.context, crypto, e.faults, e.stageEnv, e.persistEnv).1
  }

  /** The release appears, although the installation reports that storing it failed. */
  ghost predicate LeavesUnsynced(d: Storage, e: DeviceEvent, key: Key, crypto: Crypto) {
    Adds(d, e, key, crypto) && StatusOf(d, e, crypto) == StorageFailed
  }

  /** Power is lost, or a release of the application appears without such a report. */
  ghost predicate Syncs(d: Storage, e: DeviceEvent, appId: seq<byte>, crypto: Crypto) {
    || e.PowerLoss?
    || Perform(d, e, crypto).1
    || (e.InstallEvent? && KeyOf(e, crypto).0 == appId && Adds(d, e, KeyOf(e, crypto), crypto)
        && StatusOf(d, e, crypto) != StorageFailed)
  }

  /** What staging does to the set of unsynced releases, told from what appears and what is reported. */
  lemma StagedTells(store: ReleaseStore, package: seq<byte>, v: Verification, digest: Digest, env: StageEnv)
    ensures
      var key := (v.manifest.appId, v.manifest.releaseCounter);
      var (after, status) := Staged(store, package, v, digest, env);
      && after.visible.Keys <= store.visible.Keys + {key} && store.visible.Keys <= after.visible.Keys
      && after.unsynced ==
           (if key in store.visible || key !in after.visible then store.unsynced
            else if status == Committed then Synced(store.unsynced, key.0) else store.unsynced + {key})
      && (key !in store.visible && key in after.visible ==> status in {Committed, IoFailed, PowerLost})
  {
    hide FilesFrom, Occupied, Synced;
  }

  lemma InstallTells(d: Storage, e: DeviceEvent, crypto: Crypto)
    requires e.InstallEvent?
    ensures
      var v, hash := crypto.verify(e.package), crypto.sha512(e.package);
      var done := Perform(d, e, crypto).0;
      var status := StatusOf(d, e, crypto);
      || done.releases == d.releases
      || (&& hash.Some?
          && var (staged, result) := Staged(d.releases, e.package, v, hash.value, e.stageEnv);
          && done.releases == staged
          && (result == PowerLost ==> status == LostPower)
          && (status == StorageFailed <==> result != Committed && result != AlreadyPresent && result != PowerLost))
  {
    hide Examined, Staged, Activation, Disk.LoadFaulty, Disk.Persisted, PolicyOf;
    ExaminedMeans(d, e, crypto);
  }

  lemma UnsyncedStep(d: Storage, e: DeviceEvent, after: Storage, key: Key, crypto: Crypto)
    requires Follows(d, e, after, crypto)
    ensures key in after.releases.unsynced <==>
      || LeavesUnsynced(d, e, key, crypto)
      || (key in d.releases.unsynced && !Syncs(d, e, key.0, crypto))
  {
    hide EnvOk, Install, Staged, RollBackApplication;
    if e.InstallEvent? {
      InstallTells(d, e, crypto);
      if crypto.sha512(e.package).Some? {
        StagedTells(
          d.releases, e.package, crypto.verify(e.package), crypto.sha512(e.package).value, e.stageEnv);
      }
    } else if e.RollbackEvent? {
      RollbackTells(d, e, crypto);
    }
  }

  lemma RollbackTells(d: Storage, e: DeviceEvent, crypto: Crypto)
    requires e.RollbackEvent?
    ensures Perform(d, e, crypto).0.releases == d.releases
  {
    hide Disk.LoadFaulty, Disk.Persisted, ReleaseVerifies, Rollback;
  }

  /** When a release is unsynced, told from statuses: some installation left it so, and since then no power was lost
      and no other release of the application was stored. */
  lemma {:induction false} UnsyncedExactly(
    states: seq<Storage>, events: seq<DeviceEvent>, crypto: Crypto, key: Key, j: nat)
    requires DeviceRun(states, events, crypto) && j < |states|
    ensures key in states[j].releases.unsynced <==>
      exists i :: 0 <= i < j && LeavesUnsynced(states[i], events[i], key, crypto)
        && forall k :: i < k < j ==> !Syncs(states[k], events[k], key.0, crypto)
  {
    hide Follows, LeavesUnsynced, Syncs;
    if j > 0 {
      UnsyncedExactly(states, events, crypto, key, j - 1);
      UnsyncedStep(states[j - 1], events[j - 1], states[j], key, crypto);
    }
  }

  /** After an installation that reports full success both slots hold its state, and nothing else is left. */
  lemma InstalledIsRedundant(d: Storage, e: DeviceEvent, crypto: Crypto)
    requires e.InstallEvent? && Available(crypto.sha256) && PoliciesOk(d, crypto) && EnvOk(d, e, crypto)
    requires Sees(d, e, crypto) && StatusOf(d, e, crypto) in {Installed, AlreadyInstalled}
    ensures
      var (done, lost, ok) := Perform(d, e, crypto);
      var appId := Target(e, crypto);
      var t := WantedBy(Active(d, appId, crypto), e, crypto);
      && ok && !lost && t.Some? && t.value.appId == appId
      && Disk.Redundant(PolicyOf(done, appId).visible, t.value, crypto.sha256)
      && PolicyOf(done, appId) == Disk.Settled(PolicyOf(done, appId).visible)
  {
    hide Disk.LoadFaulty, Disk.Load, Disk.Persisted, Disk.TornOk, Disk.Atomic, Staged, WantedBy, PoliciesOk, PolicyOk;
    hide Inv, Available, Sees, Disk.Redundant, EnvOk, Examined, Disk.Holds, Activation;
    var appId := Target(e, crypto);
    var current := Active(d, appId, crypto);
    FullSuccess(d, e, crypto);
    OperationKeepsPolicies(d, e, crypto);
    CommitsWhatIsActive(d, e, crypto);
    ActiveOfRun(d, appId, crypto);
    WantedIsSound(current, e, crypto);
    var t := WantedBy(current, e, crypto).value;
    InvIsValid(t);
    PolicyIsOk(d, appId, crypto);
    AbsentIsSettled(d, appId, crypto);
    ActiveIsPresent(d, appId, crypto);
    if current.Some? {
      Disk.PersistAnswers(PolicyOf(d, appId), t, e.persistEnv, crypto.sha256);
    } else {
      Disk.FirstWritten(t, e.persistEnv, crypto.sha256);
    }
    Runs.SettledEntry(PolicyOf(Perform(d, e, crypto).0, appId), t, crypto.sha256);
  }

  lemma AbsentIsSettled(d: Storage, appId: seq<byte>, crypto: Crypto)
    requires PoliciesOk(d, crypto)
    ensures PolicyOf(d, appId).visible.Absent? ==> PolicyOf(d, appId) == Disk.Settled(Disk.Absent)
  {
    assert PolicyOk(PolicyOf(d, appId), appId, crypto);
    hide Sound, Disk.Load;
  }

  /** Full success is what a commit into both slots reports. */
  lemma FullSuccess(d: Storage, e: DeviceEvent, crypto: Crypto)
    requires e.InstallEvent? && StatusOf(d, e, crypto) in {Installed, AlreadyInstalled}
    ensures
      var (done, lost, ok) := Perform(d, e, crypto);
      var k, t := PolicyOf(d, Target(e, crypto)), WantedBy(Seen(d, Target(e, crypto), e.faults, crypto), e, crypto);
      && ok && !lost && t.Some?
      && Disk.Persisted(k, t.value, crypto.sha256, e.persistEnv) == (PolicyOf(done, Target(e, crypto)), Some(Disk.Written))
  {
    hide Examined, Staged, Activation, Disk.LoadFaulty, Disk.Persisted, WantedBy;
    ExaminedMeans(d, e, crypto);
    WantedByInstall(d, e, crypto);
  }

  /** So from an installation that reports full success, until the next operation on the same application, no
      failure of a load takes an older state for the one that is there, power lost or not. */
  lemma {:induction false} FullSuccessIsSighted(
    states: seq<Storage>, events: seq<DeviceEvent>, crypto: Crypto, i: nat, j: nat) returns (t: State)
    requires SightedRun(states, events, crypto) && i < j < |states| && events[i].InstallEvent?
    requires StatusOf(states[i], events[i], crypto) in {Installed, AlreadyInstalled}
    requires forall k :: i < k < j && !events[k].PowerLoss? ==>
      Target(events[k], crypto) != Target(events[i], crypto)
    ensures
      var appId := Target(events[i], crypto);
      var k := PolicyOf(states[j], appId);
      && t.appId == appId && Disk.Redundant(k.visible, t, crypto.sha256) && k == Disk.Settled(k.visible)
      && forall faults :: Disk.Sighted(k.visible, appId, crypto.sha256, faults)
  {
    hide PoliciesOk, Perform, Available, Sees, Disk.Redundant, Disk.Sighted, EnvOk, WantedBy, Install;
    var appId := Target(events[i], crypto);
    assert Follows(states[j - 1], events[j - 1], states[j], crypto) && Sees(states[j - 1], events[j - 1], crypto);
    if i + 1 < j {
      t := FullSuccessIsSighted(states, events, crypto, i, j - 1);
      if !events[j - 1].PowerLoss? {
        OthersUntouched(states[j - 1], events[j - 1], appId, crypto);
      }
      SettledStays(states[j - 1], events[j - 1], states[j], appId, crypto);
    } else {
      RunKeepsPolicies(states, events, crypto, i);
      InstalledIsRedundant(states[i], events[i], crypto);
      t := WantedBy(Active(states[i], appId, crypto), events[i], crypto).value;
    }
    forall faults
      ensures Disk.Sighted(PolicyOf(states[j], appId).visible, appId, crypto.sha256, faults)
    {
      Disk.RedundantLoads(PolicyOf(states[j], appId).visible, t, crypto.sha256, faults);
    }
  }

  lemma SettledStays(d: Storage, e: DeviceEvent, after: Storage, appId: seq<byte>, crypto: Crypto)
    requires Follows(d, e, after, crypto) && PolicyOf(d, appId) == Disk.Settled(PolicyOf(d, appId).visible)
    requires !e.PowerLoss? ==> PolicyOf(Perform(d, e, crypto).0, appId) == PolicyOf(d, appId)
    ensures PolicyOf(after, appId) == PolicyOf(d, appId)
  {
    hide EnvOk, Perform;
    Runs.SettledOutcomes(PolicyOf(d, appId));
    if e.PowerLoss? || Perform(d, e, crypto).1 {
      assert Runs.Left(PolicyOf(d, appId), PolicyOf(after, appId));
    }
  }

  /** What verification promises of a package. */
  predicate Sane(package: seq<byte>, v: Verification) {
    package != [] && Authenticated(v) && WellFormed(v.manifest) && Stageable(v, package) && ValidPaths(v.manifest.files)
  }

  /** Nothing in the environment stops the staging of `n` files or the commit of a state. */
  ghost predicate Unhindered(stageEnv: StageEnv, env: Disk.PersistEnv, n: nat, next: State, crypto: Crypto) {
    && stageEnv.stop > n + 5 && env.opening.Opened?
    && var encoded := Encode(next, crypto.sha256);
    encoded.Ok? && Disk.SlotResult(encoded.value, env.first) == Disk.SlotWritten
    && Disk.SlotResult(encoded.value, env.second) != Disk.PowerLost
  }

  /** On a reachable device a new verified package installs if and only if the state of its application loads or
      there is none yet, it can be hashed, the policy allows it, it is not the quarantined release, a generation is
      left, its files can live beside each other, and nothing in the environment stops it. */
  lemma InstallsExactly(d: Storage, e: DeviceEvent, crypto: Crypto)
    requires e.InstallEvent? && Trusted(crypto) && DeviceInv(d, crypto) && Sees(d, e, crypto)
    requires Sane(e.package, crypto.verify(e.package)) && KeyOf(e, crypto) !in d.releases.visible
    ensures
      var v, hash := crypto.verify(e.package), crypto.sha512(e.package);
      var appId := v.manifest.appId;
      var current := Active(d, appId, crypto);
      var mark := if current.Some? then Some(HighWaterOf(current.value)) else None;
      Perform(d, e, crypto).2 <==>
        && (if current.Some? then Seen(d, appId, e.faults, crypto).Some?
            else PolicyOf(d, appId).visible.Absent? && !e.faults.opening)
        && hash.Some? && !Zero(hash.value)
        && Evaluate(v, hash.value, e.context, mark) == Allowed
        && (current.Some? ==>
              v.manifest.releaseCounter != current.value.quarantined && current.value.generation != U64_MAX)
        && Compatible(v.manifest.files)
        && Activation(v, hash.value, current).Some?
        && Unhindered(
             e.stageEnv, e.persistEnv, |v.manifest.files|, Activation(v, hash.value, current).value, crypto)
  {
    hide DeviceInv, Trusted, Inv, Available, Perform, Evaluate, Activation, Staged, Examined, Compatible;
    hide Disk.LoadFaulty, Disk.Load, Disk.Sighted, Disk.Persisted, Unhindered, Sane;
    var v, hash := crypto.verify(e.package), crypto.sha512(e.package);
    var current := Active(d, v.manifest.appId, crypto);
    InstallSucceeds(d, e, crypto);
    ExaminedExactly(d, e, crypto);
    if hash.Some? && (current.Some? ==> Seen(d, v.manifest.appId, e.faults, crypto) == current) {
      NewActivates(d, e, crypto);
      if Evaluate(v, hash.value, e.context, if current.Some? then Some(HighWaterOf(current.value)) else None) == Allowed
        && Activation(v, hash.value, current).Some? && Seen(d, v.manifest.appId, e.faults, crypto) == current
      {
        CompletesWhen(d, e, crypto);
      }
    }
  }

  /** What is refused before anything is written, in terms of the state that is there. */
  lemma ExaminedExactly(d: Storage, e: DeviceEvent, crypto: Crypto)
    requires e.InstallEvent? && Trusted(crypto) && DeviceInv(d, crypto) && Sees(d, e, crypto)
    requires Sane(e.package, crypto.verify(e.package))
    ensures
      var v, hash := crypto.verify(e.package), crypto.sha512(e.package);
      var appId := v.manifest.appId;
      var current, seen := Active(d, appId, crypto), Seen(d, appId, e.faults, crypto);
      var mark := if current.Some? then Some(HighWaterOf(current.value)) else None;
      && (seen.None? || seen == current)
      && (Examined(d, e.package, e.context, crypto, e.faults).None? <==>
            && hash.Some?
            && (if current.Some? then seen.Some? else PolicyOf(d, appId).visible.Absent? && !e.faults.opening)
            && Evaluate(v, hash.value, e.context, mark) == Allowed)
  {
    var appId := crypto.verify(e.package).manifest.appId;
    var k := PolicyOf(d, appId);
    Disk.SightedMeans(k.visible, appId, crypto.sha256, e.faults);
    NotFoundExactly(k.visible, appId, e.faults, crypto);
    ActiveIsPresent(d, appId, crypto);
    hide Disk.LoadFaulty, Disk.Load, Disk.Sighted, Evaluate, DeviceInv, Trusted, WellFormed, Stageable, ValidPaths, AppId;
    assert AppId(appId) by { SaneHasAppId(e.package, crypto.verify(e.package)); }
  }

  lemma SaneHasAppId(package: seq<byte>, v: Verification)
    requires Sane(package, v)
    ensures AppId(v.manifest.appId) && v.manifest.releaseCounter != 0 && SafeComponent(v.manifest.appId)
  {
  }

  lemma NotFoundExactly(dir: Disk.Directory, appId: seq<byte>, faults: Disk.Faults, crypto: Crypto)
    requires AppId(appId)
    ensures Disk.LoadFaulty(dir, appId, crypto.sha256, faults).0 == Disk.NotFound <==> dir.Absent? && !faults.opening
    ensures dir.Absent? ==> Disk.LoadFaulty(dir, appId, crypto.sha256, faults).1.None?
  {
    hide Decode, AppId;
  }

  lemma ActiveIsPresent(d: Storage, appId: seq<byte>, crypto: Crypto)
    ensures Active(d, appId, crypto).Some? ==> PolicyOf(d, appId).visible.Present?
  {
    Disk.BlankLoadsNothing(appId, crypto.sha256);
    hide Disk.Load;
  }

  /** Whether a new release that the policy allows activates. */
  lemma NewActivates(d: Storage, e: DeviceEvent, crypto: Crypto)
    requires e.InstallEvent? && DeviceInv(d, crypto) && Sane(e.package, crypto.verify(e.package))
    requires KeyOf(e, crypto) !in d.releases.visible && crypto.sha512(e.package).Some?
    ensures
      var v, digest := crypto.verify(e.package), crypto.sha512(e.package).value;
      var current := Active(d, v.manifest.appId, crypto);
      var mark := if current.Some? then Some(HighWaterOf(current.value)) else None;
      Evaluate(v, digest, e.context, mark) == Allowed ==>
        (Activation(v, digest, current).Some? <==>
          && !Zero(digest)
          && (current.Some? ==>
                v.manifest.releaseCounter != current.value.quarantined && current.value.generation != U64_MAX))
  {
    var v, digest := crypto.verify(e.package), crypto.sha512(e.package).value;
    var current := Active(d, v.manifest.appId, crypto);
    var mark := if current.Some? then Some(HighWaterOf(current.value)) else None;
    ActiveOfRun(d, v.manifest.appId, crypto);
    CurrentIsInstalled(d, v.manifest.appId, crypto);
    ZeroIsRefused(v, digest, current);
    hide DeviceInv, Inv, Activation, Disk.Load, Stageable, ValidPaths, Evaluate;
    if Evaluate(v, digest, e.context, mark) == Allowed && !Zero(digest) {
      AllowedReleaseActivates(v, digest, e.context, current);
    }
  }

  lemma ZeroIsRefused(v: Verification, digest: Digest, current: Option<State>)
    ensures Zero(digest) ==> Activation(v, digest, current).None?
  {
  }

  lemma CurrentIsInstalled(d: Storage, appId: seq<byte>, crypto: Crypto)
    requires DeviceInv(d, crypto)
    ensures
      var current := Active(d, appId, crypto);
      current.Some? ==> (appId, current.value.current) in d.releases.visible
  {
    ActiveIsBacked(d, appId, crypto);
    ActiveOfRun(d, appId, crypto);
    hide DeviceInv, Disk.Load, Inv;
  }

  /** Whether the rest of the transaction goes through. */
  lemma CompletesWhen(d: Storage, e: DeviceEvent, crypto: Crypto)
    requires e.InstallEvent? && Trusted(crypto) && DeviceInv(d, crypto) && Sane(e.package, crypto.verify(e.package))
    requires KeyOf(e, crypto) !in d.releases.visible && crypto.sha512(e.package).Some?
    requires
      var v, digest := crypto.verify(e.package), crypto.sha512(e.package).value;
      var current := Active(d, v.manifest.appId, crypto);
      Activation(v, digest, current).Some? && Seen(d, v.manifest.appId, e.faults, crypto) == current
    ensures
      var v, digest := crypto.verify(e.package), crypto.sha512(e.package).value;
      var next := Activation(v, digest, Active(d, v.manifest.appId, crypto)).value;
      Completes(d, e, crypto) <==>
        Compatible(v.manifest.files) && Unhindered(e.stageEnv, e.persistEnv, |v.manifest.files|, next, crypto)
  {
    var v, digest := crypto.verify(e.package), crypto.sha512(e.package).value;
    var current := Active(d, v.manifest.appId, crypto);
    var next := Activation(v, digest, current).value;
    ActiveOfRun(d, v.manifest.appId, crypto);
    SaneHasAppId(e.package, v);
    StagingExactly(d.releases, e.package, v, digest, e.stageEnv);
    ActivationIsValid(v, digest, current);
    Disk.SucceededExactly(PolicyOf(d, v.manifest.appId), next, crypto.sha256, e.persistEnv);
    hide DeviceInv, Inv, Activation, Disk.LoadFaulty, Disk.Load, Staged, Disk.Persisted, Compatible, Encode, Available;
    hide ValidState, Disk.SlotResult;
  }

  lemma ActivationIsValid(v: Verification, digest: Digest, current: Option<State>)
    requires Activation(v, digest, current).Some? && (current.Some? ==> Inv(current.value))
    ensures ValidState(Activation(v, digest, current).value)
  {
  }
}
