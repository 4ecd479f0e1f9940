/** The releases of a device: those its policies name are installed, complete, and verify. */
module DeviceReleases {
  import opened Bytes
  import opened Text
  import opened ReleaseState
  import opened ReleaseLifecycle
  import opened RollbackPolicy
  import opened Staging
  import opened PackageInstaller
  import opened DeviceRuns
  import Disk = StateStore
  import Runs = StoreRuns

  /** A release is installed as named, and will survive power loss. */
  ghost predicate Kept(
    r: ReleaseStore, appId: seq<byte>, counter: u64, digest: Digest, keyId: seq<byte>, crypto: Crypto)
  {
    Backs(r.visible, appId, counter, digest, keyId, crypto) && (appId, counter) !in r.unsynced
  }

  /** Both releases a state names are. */
  ghost predicate Backed(r: ReleaseStore, s: State, crypto: Crypto) {
    && Kept(r, s.appId, s.current, s.currentDigest, s.keyId, crypto)
    && (s.previous != 0 ==> Kept(r, s.appId, s.previous, s.previousDigest, s.keyId, crypto))
  }

  ghost predicate NamedOk(r: ReleaseStore, k: Disk.Disk, appId: seq<byte>, crypto: Crypto) {
    forall dir :: dir in Disk.Outcomes(k) && LoadedIn(dir, appId, crypto).Some? ==>
      Backed(r, LoadedIn(dir, appId, crypto).value, crypto)
  }

  /** The invariant of a device: everything that loads, or could after power loss, is reachable and names
      only complete releases that power loss cannot take away. */
  ghost predicate DeviceInv(d: Storage, crypto: Crypto) {
    && PoliciesOk(d, crypto) && AllComplete(d.releases.visible, crypto)
    && forall appId :: NamedOk(d.releases, PolicyOf(d, appId), appId, crypto)
  }

  /** What a caller must see to before installing: the release must not be there already without ever
      having been synced. */
  predicate Careful(d: Storage, e: DeviceEvent, crypto: Crypto) {
    e.InstallEvent? ==>
      var m := crypto.verify(e.package).manifest;
      !((m.appId, m.releaseCounter) in d.releases.visible && (m.appId, m.releaseCounter) in d.releases.unsynced)
  }

  /** Releases already kept stay so. */
  lemma KeptOn(r: ReleaseStore, after: ReleaseStore, s: State, crypto: Crypto)
    requires Backed(r, s, crypto)
    requires forall k :: k in r.visible && k !in r.unsynced ==> k in after.visible && after.visible[k] == r.visible[k]
    requires forall k :: k in after.unsynced ==> k in r.unsynced || k !in r.visible
    ensures Backed(after, s, crypto)
  {
    hide FileMatches, Reflects, Compatible;
  }

  lemma NamedOn(r: ReleaseStore, after: ReleaseStore, k: Disk.Disk, appId: seq<byte>, crypto: Crypto)
    requires NamedOk(r, k, appId, crypto)
    requires forall k :: k in r.visible && k !in r.unsynced ==> k in after.visible && after.visible[k] == r.visible[k]
    requires forall k :: k in after.unsynced ==> k in r.unsynced || k !in r.visible
    ensures NamedOk(after, k, appId, crypto)
  {
    hide Backed, Disk.Load, Disk.Outcomes;
    forall dir | dir in Disk.Outcomes(k) && LoadedIn(dir, appId, crypto).Some?
      ensures Backed(after, LoadedIn(dir, appId, crypto).value, crypto)
    {
      KeptOn(r, after, LoadedIn(dir, appId, crypto).value, crypto);
    }
  }

  /** What happens to the releases: nothing is lost, and what is there stays synced. */
  lemma OperationKeepsReleases(d: Storage, e: DeviceEvent, crypto: Crypto)
    requires !e.PowerLoss? && Trusted(crypto) && AllComplete(d.releases.visible, crypto)
    ensures
      var r := Perform(d, e, crypto).0.releases;
      && AllComplete(r.visible, crypto)
      && (forall k :: k in d.releases.visible ==> k in r.visible && r.visible[k] == d.releases.visible[k])
      && (forall k :: k in r.unsynced ==> k in d.releases.unsynced || k !in d.releases.visible)
      && (Commits(d, e, crypto) && e.InstallEvent? ==>
            && crypto.sha512(e.package).Some?
            && var m := crypto.verify(e.package).manifest;
            && Backs(r.visible, m.appId, m.releaseCounter, crypto.sha512(e.package).value, m.keyId, crypto)
            && ((m.appId, m.releaseCounter) in r.unsynced <==> !Careful(d, e, crypto)))
  {
    hide Trusted, AllComplete, Perform, Staged, Disk.Persisted, WantedBy, Backs, Disk.LoadFaulty;
    CommitsOrStops(d, e, crypto);
    if e.InstallEvent? && crypto.sha512(e.package).Some? {
      StagingKeepsComplete(
        d.releases, e.package, crypto.verify(e.package), crypto.sha512(e.package).value, e.stageEnv, crypto);
    }
  }

  /** What a committed transition names is kept, if the caller was careful. */
  lemma WantedIsBacked(d: Storage, e: DeviceEvent, crypto: Crypto)
    requires !e.PowerLoss? && Trusted(crypto) && DeviceInv(d, crypto) && Commits(d, e, crypto) && Careful(d, e, crypto)
    requires Sees(d, e, crypto)
    ensures
      var t := WantedBy(Active(d, Target(e, crypto), crypto), e, crypto);
      t.Some? && Backed(Perform(d, e, crypto).0.releases, t.value, crypto)
  {
    hide Trusted, PoliciesOk, AllComplete, Perform, Staged;
    hide Disk.Persisted, WantedBy, Backs, Disk.Load, Disk.LoadFaulty, Inv, Careful, Sees;
    CommitsWhatIsActive(d, e, crypto);
    var appId := Target(e, crypto);
    var current := Active(d, appId, crypto);
    var r := Perform(d, e, crypto).0.releases;
    PolicyIsOk(d, appId, crypto);
    ActiveIsSound(d, appId, crypto);
    WantedIsSound(current, e, crypto);
    OperationKeepsReleases(d, e, crypto);
    ActiveIsBacked(d, appId, crypto);
    if current.Some? {
      KeptOn(d.releases, r, current.value, crypto);
    }
  }

  lemma PolicyIsOk(d: Storage, appId: seq<byte>, crypto: Crypto)
    requires PoliciesOk(d, crypto)
    ensures PolicyOk(PolicyOf(d, appId), appId, crypto) && PolicyOf(d, appId).visible in PolicyOf(d, appId).maybe
  {
  }

  lemma ActiveIsBacked(d: Storage, appId: seq<byte>, crypto: Crypto)
    requires DeviceInv(d, crypto)
    ensures Active(d, appId, crypto).Some? ==> Backed(d.releases, Active(d, appId, crypto).value, crypto)
  {
    hide Backed, PoliciesOk, AllComplete, Disk.Load;
    PolicyIsOk(d, appId, crypto);
    assert NamedOk(d.releases, PolicyOf(d, appId), appId, crypto);
    assert PolicyOf(d, appId).visible in Disk.Outcomes(PolicyOf(d, appId));
  }

  lemma OperationKeepsDevice(d: Storage, e: DeviceEvent, crypto: Crypto)
    requires !e.PowerLoss? && Trusted(crypto) && DeviceInv(d, crypto) && EnvOk(d, e, crypto) && Careful(d, e, crypto)
    requires Sees(d, e, crypto)
    ensures DeviceInv(Perform(d, e, crypto).0, crypto)
  {
    hide PoliciesOk, AllComplete, Perform, WantedBy, Backed;
    hide Disk.Load, Careful, EnvOk, Commits, Disk.Outcomes, Runs.SettledOn, Sees;
    var done := Perform(d, e, crypto).0;
    var appId := Target(e, crypto);
    var current := Active(d, appId, crypto);
    OperationKeepsPolicies(d, e, crypto);
    OperationKeepsReleases(d, e, crypto);
    ActiveIsBacked(d, appId, crypto);
    if current.Some? {
      KeptOn(d.releases, done.releases, current.value, crypto);
    }
    if Commits(d, e, crypto) {
      WantedIsBacked(d, e, crypto);
    }
    forall other
      ensures NamedOk(done.releases, PolicyOf(done, other), other, crypto)
    {
      NamedOn(d.releases, done.releases, PolicyOf(d, other), other, crypto);
    }
  }

  lemma LossKeepsDevice(d: Storage, after: Storage, crypto: Crypto)
    requires DeviceInv(d, crypto) && Left(d, after)
    ensures DeviceInv(after, crypto)
  {
    hide PoliciesOk, CompleteAt;
    LossKeepsPolicies(d, after, crypto);
    forall k | k in after.releases.visible
      ensures CompleteAt(after.releases.visible, k, crypto)
    {
      CompleteKept(d.releases.visible, after.releases.visible, k, crypto);
    }
    forall appId
      ensures NamedOk(after.releases, PolicyOf(after, appId), appId, crypto)
    {
      NamedOn(d.releases, after.releases, PolicyOf(d, appId), appId, crypto);
      assert Runs.Left(PolicyOf(d, appId), PolicyOf(after, appId));
    }
  }

  /** Every caller in a run was careful. */
  predicate CarefulRun(states: seq<Storage>, events: seq<DeviceEvent>, crypto: Crypto) {
    |states| == |events| + 1 && forall i :: 0 <= i < |events| ==> Careful(states[i], events[i], crypto)
  }

  lemma StepKeepsDevice(d: Storage, e: DeviceEvent, after: Storage, crypto: Crypto)
    requires Trusted(crypto) && DeviceInv(d, crypto) && Careful(d, e, crypto) && Follows(d, e, after, crypto)
    requires Sees(d, e, crypto)
    ensures DeviceInv(after, crypto)
  {
    hide DeviceInv, EnvOk, Perform, Left, Trusted, Careful, Sees;
    if e.PowerLoss? {
      LossKeepsDevice(d, after, crypto);
    } else {
      OperationKeepsDevice(d, e, crypto);
      var (done, lost, _) := Perform(d, e, crypto);
      if lost {
        LossKeepsDevice(done, after, crypto);
      }
    }
  }

  /** Every sighted and careful run keeps the device invariant, whatever fails and whenever power is lost. */
  lemma {:induction false} RunKeepsDevice(
    states: seq<Storage>, events: seq<DeviceEvent>, crypto: Crypto, i: nat)
    requires SightedRun(states, events, crypto) && CarefulRun(states, events, crypto) && i < |states|
    ensures DeviceInv(states[i], crypto)
  {
    hide Follows, DeviceInv, Careful, Sees;
    if i == 0 {
      EmptyDevice(crypto);
    } else {
      RunKeepsDevice(states, events, crypto, i - 1);
      StepKeepsDevice(states[i - 1], events[i - 1], states[i], crypto);
    }
  }

  lemma EmptyDevice(crypto: Crypto)
    ensures DeviceInv(EMPTY_STORAGE, crypto)
  {
    NothingInstalled(crypto);
  }

  /** Whatever loads names only releases that are installed, complete and safe from power loss. */
  ghost predicate Intact(d: Storage, crypto: Crypto) {
    forall appId :: Active(d, appId, crypto).Some? ==> Backed(d.releases, Active(d, appId, crypto).value, crypto)
  }

  lemma DeviceIsIntact(d: Storage, crypto: Crypto)
    requires DeviceInv(d, crypto)
    ensures Intact(d, crypto)
  {
    hide DeviceInv, Backed, Disk.Load;
    forall appId | Active(d, appId, crypto).Some?
      ensures Backed(d.releases, Active(d, appId, crypto).value, crypto)
    {
      ActiveIsBacked(d, appId, crypto);
    }
  }

  /** The least that power loss may leave: every unsynced release is gone, every policy as it was visible. */
  function Lost(d: Storage): Storage {
    Storage(
      ReleaseStore(map k | k in d.releases.visible && k !in d.releases.unsynced :: d.releases.visible[k], {}),
      map appId | appId in d.policies :: Disk.Settled(d.policies[appId].visible))
  }

  lemma LostIsLeft(d: Storage, crypto: Crypto)
    requires PoliciesOk(d, crypto)
    ensures Left(d, Lost(d))
    ensures forall appId :: Active(Lost(d), appId, crypto) == Active(d, appId, crypto)
  {
    hide Sound, Disk.Load;
    forall appId
      ensures Runs.Left(PolicyOf(d, appId), PolicyOf(Lost(d), appId))
    {
      PolicyIsOk(d, appId, crypto);
      assert PolicyOf(d, appId).visible in Disk.Outcomes(PolicyOf(d, appId));
    }
  }

  /** Care is exactly what a reported success takes: afterwards, whatever power loss leaves, everything
      that loads names installed releases, if and only if the caller was careful. */
  lemma CarefulExactly(d: Storage, e: DeviceEvent, crypto: Crypto)
    requires e.InstallEvent? && Trusted(crypto) && DeviceInv(d, crypto) && EnvOk(d, e, crypto)
    requires Sees(d, e, crypto) && Perform(d, e, crypto).2
    ensures Careful(d, e, crypto) <==>
      forall after :: Left(Perform(d, e, crypto).0, after) ==> Intact(after, crypto)
  {
    hide Available, PoliciesOk, AllComplete, NamedOk, Perform, WantedBy, Careful;
    hide EnvOk, Left, Intact, Disk.Load, Runs.SettledOn, Inv, Disk.Outcomes, Sees;
    var done := Perform(d, e, crypto).0;
    OperationKeepsPolicies(d, e, crypto);
    if Careful(d, e, crypto) {
      OperationKeepsDevice(d, e, crypto);
      forall after | Left(done, after)
        ensures Intact(after, crypto)
      {
        LossKeepsDevice(done, after, crypto);
        DeviceIsIntact(after, crypto);
      }
    } else {
      LostIsLeft(done, crypto);
      CarelessIsNotIntact(d, e, crypto);
    }
  }

  lemma CarelessIsNotIntact(d: Storage, e: DeviceEvent, crypto: Crypto)
    requires e.InstallEvent? && Trusted(crypto) && DeviceInv(d, crypto) && EnvOk(d, e, crypto)
    requires Sees(d, e, crypto) && Perform(d, e, crypto).2 && !Careful(d, e, crypto)
    ensures PoliciesOk(Perform(d, e, crypto).0, crypto) && !Intact(Lost(Perform(d, e, crypto).0), crypto)
  {
    hide Available, PoliciesOk, AllComplete, NamedOk, Perform, WantedBy;
    hide Careful, EnvOk, Disk.Load, Inv, Disk.Outcomes, CompleteAt, Sees;
    var done := Perform(d, e, crypto).0;
    var appId := Target(e, crypto);
    var current := Active(d, appId, crypto);
    OperationKeepsPolicies(d, e, crypto);
    OperationKeepsReleases(d, e, crypto);
    ActiveOfRun(d, appId, crypto);
    WantedIsSound(current, e, crypto);
    var t := WantedBy(current, e, crypto).value;
    Disk.LoadReturnsNewest(PolicyOf(done, appId).visible, t, crypto.sha256);
    LostIsLeft(done, crypto);
    NotCompleteWhenLost(done, (appId, t.current), crypto);
    assert Active(Lost(done), appId, crypto) == Some(t);
  }

  lemma NotCompleteWhenLost(d: Storage, key: Key, crypto: Crypto)
    requires key in d.releases.unsynced
    ensures !CompleteAt(Lost(d).releases.visible, key, crypto)
  {
  }

  /** The input that shows care is needed. Where an installation would succeed, let the sync of its release
      fail: it reports an error. The retry finds the release already present, syncs nothing, reports
      success, and is not careful: power loss may leave a policy that names a missing release. */
  lemma RetryLosesRelease(d: Storage, e: DeviceEvent, crypto: Crypto)
    requires e.InstallEvent? && Trusted(crypto) && DeviceInv(d, crypto) && EnvOk(d, e, crypto)
    requires Sees(d, e, crypto) && Perform(d, e, crypto).2
    requires
      var m := crypto.verify(e.package).manifest;
      (m.appId, m.releaseCounter) !in d.releases.visible
    ensures
      var files := crypto.verify(e.package).manifest.files;
      var (failed, lost, ok) := Perform(d, e.(stageEnv := StageEnv(|files| + 5, false)), crypto);
      && !lost && !ok && DeviceInv(failed, crypto) && EnvOk(failed, e, crypto)
      && Perform(failed, e, crypto).2
      && Left(Perform(failed, e, crypto).0, Lost(Perform(failed, e, crypto).0))
      && !Intact(Lost(Perform(failed, e, crypto).0), crypto)
  {
    var v := crypto.verify(e.package);
    var first := e.(stageEnv := StageEnv(|v.manifest.files| + 5, false));
    var failed := Perform(d, first, crypto).0;
    SyncFailsThenRetries(d, e, crypto);
    hide DeviceInv, Perform, Careful, Left, Intact, EnvOk, Trusted, Sees;
    assert EnvOk(d, first, crypto) && Careful(d, first, crypto) && Sees(d, first, crypto) by {
      CarefulWhenNew(d, e, first, crypto);
    }
    OperationKeepsDevice(d, first, crypto);
    CarelessIsNotIntact(failed, e, crypto);
    LostIsLeft(Perform(failed, e, crypto).0, crypto);
  }

  lemma CarefulWhenNew(d: Storage, e: DeviceEvent, first: DeviceEvent, crypto: Crypto)
    requires e.InstallEvent? && EnvOk(d, e, crypto) && first.InstallEvent? && first == e.(stageEnv := first.stageEnv)
    requires
      var m := crypto.verify(e.package).manifest;
      (m.appId, m.releaseCounter) !in d.releases.visible
    ensures EnvOk(d, first, crypto) && Careful(d, first, crypto) && (Sees(d, e, crypto) ==> Sees(d, first, crypto))
  {
    hide Disk.LoadFaulty, Disk.Sighted, Disk.TornOk, Disk.Atomic, Activation;
  }

  /** An installation that is not refused beforehand succeeds when the rest of the transaction does. */
  ghost predicate Completes(d: Storage, e: DeviceEvent, crypto: Crypto)
    requires e.InstallEvent? && crypto.sha512(e.package).Some?
  {
    var v, digest := crypto.verify(e.package), crypto.sha512(e.package).value;
    var k := PolicyOf(d, v.manifest.appId);
    var storage := Staged(d.releases, e.package, v, digest, e.stageEnv).1;
    var next := Activation(v, digest, Seen(d, v.manifest.appId, e.faults, crypto));
    && (storage.Committed? || storage.AlreadyPresent?) && next.Some?
    && Disk.Succeeded(Disk.Persisted(k, next.value, crypto.sha256, e.persistEnv).1)
  }

  lemma InstallSucceeds(d: Storage, e: DeviceEvent, crypto: Crypto)
    requires e.InstallEvent?
    ensures Perform(d, e, crypto).2 <==>
      && Examined(d, e.package, e.context, crypto, e.faults).None?
      && crypto.sha512(e.package).Some? && Completes(d, e, crypto)
  {
    hide Examined, Completes, Install;
    ExaminedMeans(d, e, crypto);
    if Examined(d, e.package, e.context, crypto, e.faults).Some? {
      RefusedIsReported(d, e, crypto);
    } else {
      CompletesExactly(d, e, crypto);
    }
  }

  lemma RefusedIsReported(d: Storage, e: DeviceEvent, crypto: Crypto)
    requires e.InstallEvent? && Examined(d, e.package, e.context, crypto, e.faults).Some?
    ensures
      Install(d, e.package, e.context, crypto, e.faults, e.stageEnv, e.persistEnv)
        == (d, Examined(d, e.package, e.context, crypto, e.faults).value)
  {
    hide Examined;
  }

  lemma CompletesExactly(d: Storage, e: DeviceEvent, crypto: Crypto)
    requires e.InstallEvent? && crypto.sha512(e.package).Some?
    requires Examined(d, e.package, e.context, crypto, e.faults).None?
    ensures Perform(d, e, crypto).2 <==> Completes(d, e, crypto)
  {
    hide Examined, Staged, Activation, Disk.LoadFaulty, Disk.Persisted, PolicyOf;
  }

  lemma SyncFailsThenRetries(d: Storage, e: DeviceEvent, crypto: Crypto)
    requires e.InstallEvent? && EnvOk(d, e, crypto) && Perform(d, e, crypto).2
    requires
      var m := crypto.verify(e.package).manifest;
      (m.appId, m.releaseCounter) !in d.releases.visible
    ensures
      var files := crypto.verify(e.package).manifest.files;
      var (failed, lost, ok) := Perform(d, e.(stageEnv := StageEnv(|files| + 5, false)), crypto);
      && !lost && !ok && EnvOk(failed, e, crypto) && !Careful(failed, e, crypto) && Perform(failed, e, crypto).2
      && (Sees(d, e, crypto) ==> Sees(failed, e, crypto))
  {
    var v := crypto.verify(e.package);
    InstallSucceeds(d, e, crypto);
    SyncFailure(d.releases, e.package, v, crypto.sha512(e.package).value, e.stageEnv);
    var first := e.(stageEnv := StageEnv(|v.manifest.files| + 5, false));
    var failed := d.(releases :=
      Staged(d.releases, e.package, v, crypto.sha512(e.package).value, first.stageEnv).0);
    FailedStaging(d, first, crypto);
    SamePolicies(d, failed, e, crypto);
    InstallSucceeds(failed, e, crypto);
    hide Staged, Examined, Disk.LoadFaulty, Disk.Sighted, Disk.TornOk, Disk.Atomic;
    hide Activation, Disk.Persisted, Perform;
  }

  lemma FailedStaging(d: Storage, e: DeviceEvent, crypto: Crypto)
    requires e.InstallEvent? && Examined(d, e.package, e.context, crypto, e.faults).None? && crypto.sha512(e.package).Some?
    requires
      Staged(d.releases, e.package, crypto.verify(e.package), crypto.sha512(e.package).value, e.stageEnv).1 == IoFailed
    ensures
      var v, digest := crypto.verify(e.package), crypto.sha512(e.package).value;
      Perform(d, e, crypto) ==
        (d.(releases := Staged(d.releases, e.package, v, digest, e.stageEnv).0), false, false)
  {
    hide Examined, Staged, Activation, Disk.LoadFaulty, Disk.Persisted, PolicyOf;
  }

  lemma SamePolicies(d: Storage, failed: Storage, e: DeviceEvent, crypto: Crypto)
    requires e.InstallEvent? && failed.policies == d.policies
    ensures Examined(failed, e.package, e.context, crypto, e.faults) == Examined(d, e.package, e.context, crypto, e.faults)
    ensures EnvOk(failed, e, crypto) == EnvOk(d, e, crypto) && Sees(failed, e, crypto) == Sees(d, e, crypto)
  {
    hide Evaluate, Disk.LoadFaulty, Disk.Sighted, Disk.TornOk, Disk.Atomic;
  }

  /** A release that backs a state passes every check made on installed releases but compatibility. */
  lemma BackedIsGenuine(
    releases: map<Key, ReleaseDir>, appId: seq<byte>, counter: u64, digest: Digest, keyId: seq<byte>, crypto: Crypto)
    requires Backs(releases, appId, counter, digest, keyId, crypto)
    ensures ReleaseGenuine(releases, appId, counter, digest, keyId, crypto)
  {
    hide FileMatches, Reflects, Compatible;
  }

  /** On a reachable device the releases a state names can be started, or rolled back to, exactly when the
      application has a session identifier that is not reserved and the release suits the device. */
  lemma NamedReleaseVerifies(d: Storage, appId: seq<byte>, context: Context, crypto: Crypto)
    requires DeviceInv(d, crypto) && Active(d, appId, crypto).Some?
    ensures
      var s, r := Active(d, appId, crypto).value, d.releases.visible;
      && (appId, s.current) in r && r[(appId, s.current)].package.Some?
      && (ReleaseVerifies(r, appId, s.current, s.currentDigest, s.keyId, context, crypto) <==>
            && SessionAppId(appId) && !Reserved(appId)
            && Compatibility(crypto.verify(r[(appId, s.current)].package.value), context) == Allowed)
    ensures
      var s, r := Active(d, appId, crypto).value, d.releases.visible;
      s.previous != 0 ==>
        && (appId, s.previous) in r && r[(appId, s.previous)].package.Some?
        && (ReleaseVerifies(r, appId, s.previous, s.previousDigest, s.keyId, context, crypto) <==>
              && SessionAppId(appId) && !Reserved(appId)
              && Compatibility(crypto.verify(r[(appId, s.previous)].package.value), context) == Allowed)
  {
    var s, r := Active(d, appId, crypto).value, d.releases.visible;
    ActiveIsBacked(d, appId, crypto);
    ActiveOfRun(d, appId, crypto);
    NamesReal(s);
    hide DeviceInv, Inv, Compatibility, SessionAppId, Disk.Load, CompleteAt;
    BackedIsGenuine(r, appId, s.current, s.currentDigest, s.keyId, crypto);
    if s.previous != 0 {
      BackedIsGenuine(r, appId, s.previous, s.previousDigest, s.keyId, crypto);
    }
  }

  lemma NamesReal(s: State)
    requires Inv(s)
    ensures s.current != 0 && |s.keyId| == 32
  {
  }

  /** A rollback on a reachable device succeeds exactly when the state loads, there is a previous release that suits
      the device, a generation left, an identifier that may be rolled back, and the commit succeeds. */
  lemma DeviceRollbackSucceeds(
    d: Storage, appId: seq<byte>, context: Context, recordFailure: bool, crypto: Crypto, faults: Disk.Faults,
    env: Disk.PersistEnv)
    requires DeviceInv(d, crypto) && Active(d, appId, crypto).Some?
    requires Disk.Sighted(PolicyOf(d, appId).visible, appId, crypto.sha256, faults)
    ensures
      var s, r := Active(d, appId, crypto).value, d.releases.visible;
      RollBackApplication(d, appId, context, recordFailure, crypto, faults, env).1 == RolledBack <==>
        && Seen(d, appId, faults, crypto).Some?
        && SessionAppId(appId) && !Reserved(appId) && s.previous != 0 && s.generation != U64_MAX
        && (appId, s.previous) in r && r[(appId, s.previous)].package.Some?
        && Compatibility(crypto.verify(r[(appId, s.previous)].package.value), context) == Allowed
        && Rollback(s, recordFailure).Some?
        && Disk.Succeeded(
             Disk.Persisted(PolicyOf(d, appId), Rollback(s, recordFailure).value, crypto.sha256, env).1)
  {
    NamedReleaseVerifies(d, appId, context, crypto);
    var s := Active(d, appId, crypto).value;
    ActiveOfRun(d, appId, crypto);
    RollbackSucceeds(s, recordFailure);
    Disk.SightedMeans(PolicyOf(d, appId).visible, appId, crypto.sha256, faults);
    hide DeviceInv, Inv, Compatibility, SessionAppId, Disk.Load, Disk.LoadFaulty, Disk.Sighted;
    hide ReleaseVerifies, Disk.Persisted, Rollback;
  }

  const DASHED: seq<byte> := ['a' as int, DASH, 'b' as int]

  /** The installer takes identifiers that the session does not: with a dash and no dot, an application
      can be installed and can neither be started nor rolled back. */
  lemma DashedNeverVerifies(
    d: Storage, counter: u64, digest: Digest, keyId: seq<byte>, context: Context, recordFailure: bool,
    crypto: Crypto, faults: Disk.Faults, env: Disk.PersistEnv)
    ensures AppId(DASHED) && !Reserved(DASHED)
    ensures !ReleaseVerifies(d.releases.visible, DASHED, counter, digest, keyId, context, crypto)
    ensures RollBackApplication(d, DASHED, context, recordFailure, crypto, faults, env) == (d, NotRolledBack)
  {
    assert Separator(DASHED[1]);
    hide Disk.LoadFaulty, Disk.Persisted, Compatibility, ReleaseGenuine;
  }
}
