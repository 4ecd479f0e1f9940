/** What a device did before tells what it does next: upgrades can be undone, and what is installed was allowed. */
module DeviceHistory {
  import opened Bytes
  import opened Text
  import opened ReleaseState
  import opened ReleaseLifecycle
  import opened RollbackPolicy
  import opened Staging
  import opened PackageInstaller
  import opened DeviceRuns
  import opened DeviceReleases
  import opened DeviceInstalls
  import Disk = StateStore
  import Runs = StoreRuns

  /** A successful upgrade makes the release that was current the previous one. */
  lemma UpgradeOnDevice(d: Storage, e: DeviceEvent, crypto: Crypto)
    requires e.InstallEvent? && Available(crypto.sha256) && PoliciesOk(d, crypto) && EnvOk(d, e, crypto)
    requires Sees(d, e, crypto) && Perform(d, e, crypto).2
    requires Active(d, Target(e, crypto), crypto).Some?
    requires KeyOf(e, crypto).1 != Active(d, Target(e, crypto), crypto).value.current
    ensures
      var appId := Target(e, crypto);
      var s, after := Active(d, appId, crypto).value, Active(Perform(d, e, crypto).0, appId, crypto);
      && after.Some? && Inv(after.value) && after.value.appId == appId
      && crypto.sha512(e.package) == Some(after.value.currentDigest)
      && after.value.current == KeyOf(e, crypto).1
      && after.value.previous == s.current && after.value.previousDigest == s.currentDigest
      && after.value.keyId == s.keyId && after.value.generation == s.generation + 1
  {
    hide PoliciesOk, Perform, Available, Sees, EnvOk, Disk.Load, Inv, Activation, Runs.SettledOn, Disk.Outcomes;
    var appId := Target(e, crypto);
    var current := Active(d, appId, crypto);
    OperationKeepsPolicies(d, e, crypto);
    ActiveOfRun(d, appId, crypto);
    WantedIsSound(current, e, crypto);
    var t := WantedBy(current, e, crypto).value;
    Runs.SettledLoads(PolicyOf(Perform(d, e, crypto).0, appId), t, crypto.sha256);
    UpgradeMeans(current.value, crypto.verify(e.package), crypto.sha512(e.package).value);
  }

  /** The installed release suits a device. */
  ghost predicate Suits(d: Storage, key: Key, context: Context, crypto: Crypto) {
    && key in d.releases.visible && d.releases.visible[key].package.Some?
    && Compatibility(crypto.verify(d.releases.visible[key].package.value), context) == Allowed
  }

  /** The commit of a state succeeds. */
  ghost predicate CommitSucceeds(d: Storage, t: State, crypto: Crypto, env: Disk.PersistEnv) {
    Disk.Succeeded(Disk.Persisted(PolicyOf(d, t.appId), t, crypto.sha256, env).1)
  }

  /** And it can be undone: after it a rollback succeeds if and only if the state loads, the identifier may be rolled
      back, a generation is left, the old release suits the device, and the commit succeeds; and then the old
      release is current again, with its digest, and the new one stays out. */
  lemma UpgradeIsUndone(d: Storage, e: DeviceEvent, back: DeviceEvent, crypto: Crypto)
    requires e.InstallEvent? && Trusted(crypto) && DeviceInv(d, crypto) && EnvOk(d, e, crypto)
    requires Sees(d, e, crypto) && Careful(d, e, crypto) && Perform(d, e, crypto).2
    requires Active(d, Target(e, crypto), crypto).Some?
    requires KeyOf(e, crypto).1 != Active(d, Target(e, crypto), crypto).value.current
    requires back.RollbackEvent? && back.appId == Target(e, crypto)
    requires EnvOk(Perform(d, e, crypto).0, back, crypto) && Sees(Perform(d, e, crypto).0, back, crypto)
    ensures Active(Perform(d, e, crypto).0, back.appId, crypto).Some?
    ensures
      var appId, done := back.appId, Perform(d, e, crypto).0;
      var s, t := Active(d, appId, crypto).value, Active(done, appId, crypto).value;
      Perform(done, back, crypto).2 <==>
        && Seen(done, appId, back.faults, crypto).Some? && SessionAppId(appId) && !Reserved(appId)
        && t.generation < 0xffff_ffff_ffff_ffff && Suits(d, (appId, s.current), back.context, crypto)
        && Rollback(t, back.recordFailure).Some?
        && CommitSucceeds(done, Rollback(t, back.recordFailure).value, crypto, back.persistEnv)
    ensures
      var appId, done := back.appId, Perform(d, e, crypto).0;
      var s, loaded := Active(d, appId, crypto).value, Active(Perform(done, back, crypto).0, appId, crypto);
      Perform(done, back, crypto).2 ==>
        && loaded.Some? && loaded.value.current == s.current && loaded.value.currentDigest == s.currentDigest
        && loaded.value.quarantined == KeyOf(e, crypto).1
  {
    hide DeviceInv, Perform, Sees, EnvOk, Careful, Available, Disk.Load, Disk.LoadFaulty, Inv, Compatibility;
    hide Disk.Persisted, Rollback, CompleteAt, Reserved, SessionAppId, WantedBy;
    var appId := Target(e, crypto);
    var s, done := Active(d, appId, crypto).value, Perform(d, e, crypto).0;
    DeviceParts(d, crypto);
    UpgradeOnDevice(d, e, crypto);
    OperationKeepsDevice(d, e, crypto);
    OperationKeepsReleases(d, e, crypto);
    CurrentIsInstalled(d, appId, crypto);
    ActiveOfRun(d, appId, crypto);
    CurrentIsPositive(s);
    SeesTarget(done, back, crypto);
    DeviceRollbackSucceeds(done, appId, back.context, back.recordFailure, crypto, back.faults, back.persistEnv);
    RollbackIsFor(Active(done, appId, crypto).value, back.recordFailure);
    RolledBackIsReported(done, back, crypto);
    if Perform(done, back, crypto).2 {
      DeviceParts(done, crypto);
      RollbackOnDevice(done, back, crypto);
    }
  }

  lemma RollbackIsFor(t: State, recordFailure: bool)
    ensures Rollback(t, recordFailure).Some? ==> Rollback(t, recordFailure).value.appId == t.appId
  {
  }

  lemma DeviceParts(d: Storage, crypto: Crypto)
    requires DeviceInv(d, crypto)
    ensures PoliciesOk(d, crypto) && AllComplete(d.releases.visible, crypto)
  {
  }

  lemma SeesTarget(d: Storage, e: DeviceEvent, crypto: Crypto)
    requires e.RollbackEvent? && Sees(d, e, crypto)
    ensures Disk.Sighted(PolicyOf(d, e.appId).visible, e.appId, crypto.sha256, e.faults)
  {
  }

  lemma RolledBackIsReported(d: Storage, e: DeviceEvent, crypto: Crypto)
    requires e.RollbackEvent?
    ensures Perform(d, e, crypto).2 <==>
      RollBackApplication(d, e.appId, e.context, e.recordFailure, crypto, e.faults, e.persistEnv).1 == RolledBack
  {
    hide RollBackApplication;
  }

  /** What a rollback that reports success leaves to be loaded. */
  lemma RollbackOnDevice(d: Storage, e: DeviceEvent, crypto: Crypto)
    requires e.RollbackEvent? && Available(crypto.sha256) && PoliciesOk(d, crypto) && EnvOk(d, e, crypto)
    requires Sees(d, e, crypto) && Perform(d, e, crypto).2 && Active(d, e.appId, crypto).Some?
    ensures
      var s, after := Active(d, e.appId, crypto).value, Active(Perform(d, e, crypto).0, e.appId, crypto);
      && after.Some? && after.value.current == s.previous && after.value.currentDigest == s.previousDigest
      && after.value.quarantined == s.current && after.value.previous == 0
  {
    hide PoliciesOk, Perform, Available, Sees, EnvOk, Disk.Load, Inv, Rollback, Runs.SettledOn, Disk.Outcomes;
    var current := Active(d, e.appId, crypto);
    OperationKeepsPolicies(d, e, crypto);
    ActiveOfRun(d, e.appId, crypto);
    WantedIsSound(current, e, crypto);
    RollbackMeans(current.value, e.recordFailure);
    Runs.SettledLoads(
      PolicyOf(Perform(d, e, crypto).0, e.appId), WantedBy(current, e, crypto).value, crypto.sha256);
  }

  /** An installation of this release that the policy had allowed. */
  ghost predicate Vets(e: DeviceEvent, appId: seq<byte>, counter: u64, digest: Digest, crypto: Crypto) {
    && e.InstallEvent? && KeyOf(e, crypto) == (appId, counter) && crypto.sha512(e.package) == Some(digest)
    && Compatibility(crypto.verify(e.package), e.context) == Allowed
  }

  ghost predicate Vetted(
    events: seq<DeviceEvent>, appId: seq<byte>, counter: u64, digest: Digest, crypto: Crypto)
  {
    exists i :: 0 <= i < |events| && Vets(events[i], appId, counter, digest, crypto)
  }

  /** Both releases that a state names were vetted. */
  ghost predicate VettedState(events: seq<DeviceEvent>, s: State, crypto: Crypto) {
    && Vetted(events, s.appId, s.current, s.currentDigest, crypto)
    && (s.previous != 0 ==> Vetted(events, s.appId, s.previous, s.previousDigest, crypto))
  }

  ghost predicate AllVetted(events: seq<DeviceEvent>, d: Storage, crypto: Crypto) {
    forall appId, dir :: dir in Disk.Outcomes(PolicyOf(d, appId)) && LoadedIn(dir, appId, crypto).Some? ==>
      VettedState(events, LoadedIn(dir, appId, crypto).value, crypto)
  }

  lemma VettedLater(events: seq<DeviceEvent>, e: DeviceEvent, s: State, crypto: Crypto)
    requires VettedState(events, s, crypto)
    ensures VettedState(events + [e], s, crypto)
  {
    hide Vets;
    forall counter, digest | Vetted(events, s.appId, counter, digest, crypto)
      ensures Vetted(events + [e], s.appId, counter, digest, crypto)
    {
      var i :| 0 <= i < |events| && Vets(events[i], s.appId, counter, digest, crypto);
      assert (events + [e])[i] == events[i];
    }
  }

  /** An installation that is not refused beforehand vets its release. */
  lemma ExaminedVets(d: Storage, e: DeviceEvent, crypto: Crypto)
    requires e.InstallEvent? && Examined(d, e.package, e.context, crypto, e.faults).None?
    ensures
      var hash := crypto.sha512(e.package);
      hash.Some? && Vets(e, KeyOf(e, crypto).0, KeyOf(e, crypto).1, hash.value, crypto)
  {
    hide Compatibility, Disk.LoadFaulty;
  }

  lemma WantedIsVetted(events: seq<DeviceEvent>, d: Storage, e: DeviceEvent, crypto: Crypto)
    requires !e.PowerLoss? && PoliciesOk(d, crypto) && AllVetted(events, d, crypto)
    requires e.InstallEvent? ==> Examined(d, e.package, e.context, crypto, e.faults).None?
    requires WantedBy(Active(d, Target(e, crypto), crypto), e, crypto).Some?
    ensures VettedState(events + [e], WantedBy(Active(d, Target(e, crypto), crypto), e, crypto).value, crypto)
  {
    hide PoliciesOk, WantedBy, Vets, Examined, Disk.Load, Inv;
    var appId := Target(e, crypto);
    var current := Active(d, appId, crypto);
    ActiveOfRun(d, appId, crypto);
    WantedIsSound(current, e, crypto);
    ActiveIsVetted(events, d, appId, crypto);
    assert (events + [e])[|events|] == e;
    if current.Some? {
      VettedLater(events, e, current.value, crypto);
    }
    if e.InstallEvent? {
      ExaminedVets(d, e, crypto);
    }
  }

  lemma ActiveIsVetted(events: seq<DeviceEvent>, d: Storage, appId: seq<byte>, crypto: Crypto)
    requires PoliciesOk(d, crypto) && AllVetted(events, d, crypto)
    ensures Active(d, appId, crypto).Some? ==> VettedState(events, Active(d, appId, crypto).value, crypto)
  {
    hide PoliciesOk, VettedState, Disk.Load;
    PolicyIsOk(d, appId, crypto);
    assert PolicyOf(d, appId).visible in Disk.Outcomes(PolicyOf(d, appId));
  }

  lemma OperationKeepsVetted(events: seq<DeviceEvent>, d: Storage, e: DeviceEvent, crypto: Crypto)
    requires !e.PowerLoss? && Available(crypto.sha256) && PoliciesOk(d, crypto) && EnvOk(d, e, crypto)
    requires Sees(d, e, crypto) && AllVetted(events, d, crypto)
    ensures AllVetted(events + [e], Perform(d, e, crypto).0, crypto)
  {
    hide PoliciesOk, WantedBy, VettedState, Disk.Load, Perform, Sees, EnvOk, Available, Commits, Disk.Outcomes;
    hide Runs.SettledOn, Examined;
    var appId := Target(e, crypto);
    var current := Active(d, appId, crypto);
    var done := Perform(d, e, crypto).0;
    OperationKeepsPolicies(d, e, crypto);
    ActiveIsVetted(events, d, appId, crypto);
    var refused := e.InstallEvent? && Examined(d, e.package, e.context, crypto, e.faults).Some?;
    if refused {
      RefusedChangesNothing(d, e, crypto);
    } else if WantedBy(current, e, crypto).Some? {
      WantedIsVetted(events, d, e, crypto);
    }
    forall other, dir | dir in Disk.Outcomes(PolicyOf(done, other)) && LoadedIn(dir, other, crypto).Some?
      ensures VettedState(events + [e], LoadedIn(dir, other, crypto).value, crypto)
    {
      if dir in Disk.Outcomes(PolicyOf(d, other)) {
        VettedLater(events, e, LoadedIn(dir, other, crypto).value, crypto);
      } else if current.Some? {
        VettedLater(events, e, current.value, crypto);
      }
    }
  }

  lemma RefusedChangesNothing(d: Storage, e: DeviceEvent, crypto: Crypto)
    requires e.InstallEvent? && Examined(d, e.package, e.context, crypto, e.faults).Some?
    ensures Perform(d, e, crypto).0 == d
  {
    hide Install;
    RefusedIsReported(d, e, crypto);
  }

  lemma LossKeepsVetted(events: seq<DeviceEvent>, d: Storage, after: Storage, crypto: Crypto)
    requires AllVetted(events, d, crypto) && Left(d, after)
    ensures AllVetted(events, after, crypto)
  {
    hide VettedState, Disk.Load;
    forall appId, dir | dir in Disk.Outcomes(PolicyOf(after, appId)) && LoadedIn(dir, appId, crypto).Some?
      ensures VettedState(events, LoadedIn(dir, appId, crypto).value, crypto)
    {
      assert Runs.Left(PolicyOf(d, appId), PolicyOf(after, appId));
    }
  }

  lemma {:induction false} RunKeepsVetted(states: seq<Storage>, events: seq<DeviceEvent>, crypto: Crypto, j: nat)
    requires SightedRun(states, events, crypto) && j < |states|
    ensures AllVetted(events[..j], states[j], crypto)
  {
    hide AllVetted, PoliciesOk, Perform, Left, Sees, EnvOk, Available;
    if j == 0 {
      NothingVetted(events[..0], crypto);
    } else {
      var d, e, after := states[j - 1], events[j - 1], states[j];
      RunKeepsVetted(states, events, crypto, j - 1);
      RunKeepsPolicies(states, events, crypto, j - 1);
      assert events[..j] == events[..j - 1] + [e];
      assert Follows(d, e, after, crypto) && Sees(d, e, crypto);
      if e.PowerLoss? {
        NothingNewVetted(events[..j - 1], e, d, crypto);
        LossKeepsVetted(events[..j], d, after, crypto);
      } else {
        OperationKeepsVetted(events[..j - 1], d, e, crypto);
        if Perform(d, e, crypto).1 {
          LossKeepsVetted(events[..j], Perform(d, e, crypto).0, after, crypto);
        }
      }
    }
  }

  lemma NothingNewVetted(events: seq<DeviceEvent>, e: DeviceEvent, d: Storage, crypto: Crypto)
    requires AllVetted(events, d, crypto)
    ensures AllVetted(events + [e], d, crypto)
  {
    hide VettedState, Disk.Load;
    forall appId, dir | dir in Disk.Outcomes(PolicyOf(d, appId)) && LoadedIn(dir, appId, crypto).Some?
      ensures VettedState(events + [e], LoadedIn(dir, appId, crypto).value, crypto)
    {
      VettedLater(events, e, LoadedIn(dir, appId, crypto).value, crypto);
    }
  }

  lemma NothingVetted(events: seq<DeviceEvent>, crypto: Crypto)
    ensures AllVetted(events, EMPTY_STORAGE, crypto)
  {
    forall appId
      ensures LoadedIn(Disk.Absent, appId, crypto).None?
    {
      Disk.BlankLoadsNothing(appId, crypto.sha256);
    }
    hide Disk.Load, VettedState;
  }

  /** Nothing runs that was not allowed. Over every run of a device, whatever state an application loads, its current
      release was brought by an installation before it, of a package signed by an official key, whose context granted
      every capability the package asks for, and whose SDK, platform, profile and machine it suits. */
  lemma LoadedWasAllowed(states: seq<Storage>, events: seq<DeviceEvent>, crypto: Crypto, appId: seq<byte>, j: nat)
    returns (i: nat)
    requires SightedRun(states, events, crypto) && j < |states| && Active(states[j], appId, crypto).Some?
    ensures
      var s := Active(states[j], appId, crypto).value;
      && i < j && events[i].InstallEvent? && KeyOf(events[i], crypto) == (appId, s.current)
      && crypto.sha512(events[i].package) == Some(s.currentDigest)
      && var v, context := crypto.verify(events[i].package), events[i].context;
      && v.verified && !v.development && v.signatureVerified
      && (forall k :: k in v.manifest.capabilities ==> k in context.allowedCapabilities)
      && v.manifest.sdkAbi == context.sdkAbi && VersionAtLeast(context.platform, v.manifest.minimumPlatform)
      && (context.profile != [] ==> context.profile in v.manifest.profiles)
      && (context.machine != [] ==> context.machine in v.manifest.machines)
  {
    hide PoliciesOk, AllVetted, Vets, Disk.Load, VersionAtLeast, Follows, Sees;
    RunKeepsVetted(states, events, crypto, j);
    RunKeepsPolicies(states, events, crypto, j);
    ActiveIsVetted(events[..j], states[j], appId, crypto);
    ActiveOfRun(states[j], appId, crypto);
    var s := Active(states[j], appId, crypto).value;
    i :| 0 <= i < |events[..j]| && Vets(events[..j][i], s.appId, s.current, s.currentDigest, crypto);
    assert events[..j][i] == events[i];
    VetsMeans(events[i], s, crypto);
  }

  lemma VetsMeans(e: DeviceEvent, s: State, crypto: Crypto)
    requires Vets(e, s.appId, s.current, s.currentDigest, crypto)
    ensures
      && e.InstallEvent? && KeyOf(e, crypto) == (s.appId, s.current)
      && crypto.sha512(e.package) == Some(s.currentDigest)
      && var v, context := crypto.verify(e.package), e.context;
      && v.verified && !v.development && v.signatureVerified
      && (forall k :: k in v.manifest.capabilities ==> k in context.allowedCapabilities)
      && v.manifest.sdkAbi == context.sdkAbi && VersionAtLeast(context.platform, v.manifest.minimumPlatform)
      && (context.profile != [] ==> context.profile in v.manifest.profiles)
      && (context.machine != [] ==> context.machine in v.manifest.machines)
  {
    hide VersionAtLeast;
  }
}
