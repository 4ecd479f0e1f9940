/** Runs of installations, rollbacks and power losses over all the applications of a device. */
module DeviceRuns {
  import opened Bytes
  import opened ReleaseState
  import opened ReleaseLifecycle
  import opened RollbackPolicy
  import opened Staging
  import opened PackageInstaller
  import Disk = StateStore
  import Runs = StoreRuns

  function LoadedIn(dir: Disk.Directory, appId: seq<byte>, crypto: Crypto): Option<State> {
    Disk.Load(dir, appId, crypto.sha256).1
  }

  /** The state of an application that a running system loads. */
  function Active(d: Storage, appId: seq<byte>, crypto: Crypto): Option<State> {
    LoadedIn(PolicyOf(d, appId).visible, appId, crypto)
  }

  /** What an operation loads, when something may fail in it. */
  function Seen(d: Storage, appId: seq<byte>, faults: Disk.Faults, crypto: Crypto): Option<State> {
    Disk.LoadFaulty(PolicyOf(d, appId).visible, appId, crypto.sha256, faults).1
  }

  /** Whatever loads is reachable, and is the newest state in its directory. */
  ghost predicate Sound(dir: Disk.Directory, appId: seq<byte>, crypto: Crypto) {
    var loaded := LoadedIn(dir, appId, crypto);
    loaded.Some? ==> Inv(loaded.value) && loaded.value.appId == appId && Disk.Holds(dir, loaded.value, crypto.sha256)
  }

  /** The same for all that power loss may leave; and a state loads only from a durable directory. */
  ghost predicate PolicyOk(k: Disk.Disk, appId: seq<byte>, crypto: Crypto) {
    && k.visible in k.maybe
    && (k.visible.Absent? ==> k == Disk.Settled(Disk.Absent))
    && (k.entryUnsynced ==> LoadedIn(k.visible, appId, crypto).None?)
    && forall dir :: dir in Disk.Outcomes(k) ==> Sound(dir, appId, crypto)
  }

  ghost predicate PoliciesOk(d: Storage, crypto: Crypto) {
    forall appId :: PolicyOk(PolicyOf(d, appId), appId, crypto)
  }

  datatype DeviceEvent =
    | InstallEvent(
        package: seq<byte>, context: Context, faults: Disk.Faults, stageEnv: StageEnv, persistEnv: Disk.PersistEnv)
    | RollbackEvent(
        appId: seq<byte>, context: Context, recordFailure: bool, faults: Disk.Faults, persistEnv: Disk.PersistEnv)
    | PowerLoss

  /** The storage after an operation that is not cut short, whether power was lost in it, and whether it
      reported success. */
  ghost function Perform(d: Storage, e: DeviceEvent, crypto: Crypto): (Storage, bool, bool)
    requires !e.PowerLoss?
  {
    match e
    case InstallEvent(package, context, faults, stageEnv, persistEnv) =>
      var (after, status) := Install(d, package, context, crypto, faults, stageEnv, persistEnv);
      (after, status == LostPower, status.Installed? || status.AlreadyInstalled? || status.InstalledDegraded?)
    case RollbackEvent(appId, context, recordFailure, faults, persistEnv) =>
      var (after, status) := RollBackApplication(d, appId, context, recordFailure, crypto, faults, persistEnv);
      (after, status == RollbackLostPower, status == RolledBack)
  }

  /** The application an operation concerns, and the lifecycle event it stands for. */
  function Target(e: DeviceEvent, crypto: Crypto): seq<byte>
    requires !e.PowerLoss?
  {
    if e.InstallEvent? then crypto.verify(e.package).manifest.appId else e.appId
  }

  function EventOf(e: DeviceEvent, crypto: Crypto): Event
    requires !e.PowerLoss?
  {
    match e
    case InstallEvent(package, _, _, _, _) =>
      var hash := crypto.sha512(package);
      if hash.None? then Reload else Activate(crypto.verify(package), hash.value)
    case RollbackEvent(_, _, recordFailure, _, _) => RollBack(recordFailure)
  }

  /** The state an operation would commit. */
  function WantedBy(current: Option<State>, e: DeviceEvent, crypto: Crypto): Option<State>
    requires !e.PowerLoss?
  {
    if current.Some? then Runs.Wanted(current.value, EventOf(e, crypto))
    else match EventOf(e, crypto)
      case Activate(v, digest) => Activation(v, digest, None)
      case _ => None
  }

  /** Torn writes are admitted except where a generation is written again. */
  ghost predicate EnvOk(d: Storage, e: DeviceEvent, crypto: Crypto)
    requires !e.PowerLoss?
  {
    var current := Seen(d, Target(e, crypto), e.faults, crypto);
    && Disk.TornOk(e.persistEnv.first, crypto.sha256) && Disk.TornOk(e.persistEnv.second, crypto.sha256)
    && (current.Some? && WantedBy(current, e, crypto) == current ==> Disk.Atomic(e.persistEnv.first))
  }

  /** The operation, if it is one, does not take an older state for the one that is there. */
  predicate Sees(d: Storage, e: DeviceEvent, crypto: Crypto) {
    !e.PowerLoss? ==>
      Disk.Sighted(PolicyOf(d, Target(e, crypto)).visible, Target(e, crypto), crypto.sha256, e.faults)
  }

  /** What power loss may leave: any of the unsynced releases may be gone, and every policy store goes
      back to something it may have left. */
  ghost predicate Left(d: Storage, after: Storage) {
    && after.releases.unsynced == {}
    && (forall k :: k in after.releases.visible ==>
          k in d.releases.visible && after.releases.visible[k] == d.releases.visible[k])
    && (forall k :: k in d.releases.visible && k !in d.releases.unsynced ==> k in after.releases.visible)
    && forall appId :: Runs.Left(PolicyOf(d, appId), PolicyOf(after, appId))
  }

  /** What may come of an event. */
  ghost predicate Follows(d: Storage, e: DeviceEvent, after: Storage, crypto: Crypto) {
    if e.PowerLoss? then Left(d, after)
    else
      && EnvOk(d, e, crypto)
      && var (done, lost, _) := Perform(d, e, crypto);
      && (if lost then Left(done, after) else after == done)
  }

  /** A run of a device that starts empty. */
  ghost predicate DeviceRun(states: seq<Storage>, events: seq<DeviceEvent>, crypto: Crypto) {
    && Trusted(crypto) && |states| == |events| + 1 && states[0] == EMPTY_STORAGE
    && forall i :: 0 <= i < |events| ==> Follows(states[i], events[i], states[i + 1], crypto)
  }

  ghost predicate SightedRun(states: seq<Storage>, events: seq<DeviceEvent>, crypto: Crypto) {
    && DeviceRun(states, events, crypto)
    && forall i :: 0 <= i < |events| ==> Sees(states[i], events[i], crypto)
  }

  /** The operation gets as far as committing its state, an installation after staging its release. */
  ghost predicate Commits(d: Storage, e: DeviceEvent, crypto: Crypto)
    requires !e.PowerLoss?
  {
    var appId := Target(e, crypto);
    var current := Seen(d, appId, e.faults, crypto);
    var k := PolicyOf(d, appId);
    var next := WantedBy(current, e, crypto);
    && next.Some? && (current.None? ==> k.visible == Disk.Absent)
    && var (done, lost, ok) := Perform(d, e, crypto);
    var (after, status) := Disk.Persisted(k, next.value, crypto.sha256, e.persistEnv);
    && done.policies == d.policies[appId := after]
    && lost == status.None? && ok == Disk.Succeeded(status)
    && if e.RollbackEvent? then current.Some? && done.releases == d.releases else
      && crypto.sha512(e.package).Some?
      && var staged := Staged(
           d.releases, e.package, crypto.verify(e.package), crypto.sha512(e.package).value, e.stageEnv);
      done.releases == staged.0 && staged.1 in {Committed, AlreadyPresent}
  }

  /** The operation stops before that; an installation may have staged its release. */
  ghost predicate Stops(d: Storage, e: DeviceEvent, crypto: Crypto)
    requires !e.PowerLoss?
  {
    var (done, lost, ok) := Perform(d, e, crypto);
    && done.policies == d.policies && !ok
    && (done.releases == d.releases
        || (e.InstallEvent? && crypto.sha512(e.package).Some?
            && done.releases == Staged(
                 d.releases, e.package, crypto.verify(e.package), crypto.sha512(e.package).value, e.stageEnv).0))
  }

  lemma NotFoundIsAbsent(dir: Disk.Directory, appId: seq<byte>, faults: Disk.Faults, crypto: Crypto)
    ensures Disk.LoadFaulty(dir, appId, crypto.sha256, faults).0 == Disk.NotFound ==> dir == Disk.Absent
  {
    hide Decode;
  }

  lemma ExaminedMeans(d: Storage, e: DeviceEvent, crypto: Crypto)
    requires e.InstallEvent?
    ensures
      var refusal := Examined(d, e.package, e.context, crypto, e.faults);
      var k := PolicyOf(d, Target(e, crypto));
      && (refusal.None? ==>
            && crypto.sha512(e.package).Some?
            && (Seen(d, Target(e, crypto), e.faults, crypto).None? ==> k.visible == Disk.Absent))
      && (refusal.Some? ==>
            || refusal.value.TrustRejected? || refusal.value.DigestFailed?
            || refusal.value.StateUnavailable? || refusal.value.PolicyRejected?)
  {
    NotFoundIsAbsent(PolicyOf(d, Target(e, crypto)).visible, Target(e, crypto), e.faults, crypto);
    hide Evaluate, Disk.LoadFaulty;
  }

  lemma InstallCommitsOrStops(d: Storage, e: DeviceEvent, crypto: Crypto)
    requires e.InstallEvent?
    ensures Commits(d, e, crypto) || Stops(d, e, crypto)
  {
    hide Examined, Staged, Activation, Disk.LoadFaulty, Disk.Persisted, PolicyOf, WantedBy;
    ExaminedMeans(d, e, crypto);
    WantedByInstall(d, e, crypto);
  }

  lemma WantedByInstall(d: Storage, e: DeviceEvent, crypto: Crypto)
    requires e.InstallEvent?
    ensures crypto.sha512(e.package).Some? ==> forall current ::
      WantedBy(current, e, crypto) == Activation(crypto.verify(e.package), crypto.sha512(e.package).value, current)
  {
    hide Activation;
  }

  lemma RollbackCommitsOrStops(d: Storage, e: DeviceEvent, crypto: Crypto)
    requires e.RollbackEvent?
    ensures Commits(d, e, crypto) || Stops(d, e, crypto)
  {
    hide Disk.LoadFaulty, Disk.Persisted, ReleaseVerifies, Rollback;
  }

  lemma CommitsOrStops(d: Storage, e: DeviceEvent, crypto: Crypto)
    requires !e.PowerLoss?
    ensures Commits(d, e, crypto) || Stops(d, e, crypto)
  {
    if e.InstallEvent? {
      InstallCommitsOrStops(d, e, crypto);
    } else {
      RollbackCommitsOrStops(d, e, crypto);
    }
  }

  /** Committing a transition: all that is visible, or that power loss may leave, loads the old state, the
      new one, what it might have loaded before, or nothing; after a reported success only the new one. */
  lemma CommitKeeps(
    k: Disk.Disk, current: Option<State>, t: State, appId: seq<byte>, crypto: Crypto, env: Disk.PersistEnv)
    requires Available(crypto.sha256) && PolicyOk(k, appId, crypto) && LoadedIn(k.visible, appId, crypto) == current
    requires Inv(t) && t.appId == appId && (current.None? ==> k.visible.Absent?)
    requires current.Some? ==>
      t.generation == current.value.generation + 1 || (t == current.value && Disk.Atomic(env.first))
    requires Disk.TornOk(env.first, crypto.sha256) && Disk.TornOk(env.second, crypto.sha256)
    ensures
      var (after, status) := Disk.Persisted(k, t, crypto.sha256, env);
      && PolicyOk(after, appId, crypto)
      && (forall dir :: dir in Disk.Outcomes(after) ==>
            dir in Disk.Outcomes(k) || LoadedIn(dir, appId, crypto) in {None, current, Some(t)})
      && LoadedIn(after.visible, appId, crypto) in {current, Some(t)}
      && (Disk.Succeeded(status) ==> Runs.SettledOn(after, t, crypto.sha256))
  {
    hide Disk.Persisted, Disk.Holds, Disk.Load, ValidState, Decode;
    hide Encode, Inv, Available, Disk.TornOk, Disk.Atomic;
    InvIsValid(t);
    assert Sound(k.visible, appId, crypto);
    var (after, status) := Disk.Persisted(k, t, crypto.sha256, env);
    if current.None? {
      Disk.FirstPersist(t, crypto.sha256, env);
      assert Disk.NewOrNothing(after, t, crypto.sha256);
    } else {
      if current == Some(t) {
        Disk.PersistSameGeneration(k, t, crypto.sha256, env);
      } else {
        Disk.PersistNextGeneration(k, current.value, t, crypto.sha256, env);
      }
      assert Disk.OldOrNew(k, after, current.value, t, crypto.sha256);
    }
    forall dir, s | Disk.Holds(dir, s, crypto.sha256) && (s == t || current == Some(s))
      ensures LoadedIn(dir, appId, crypto) == Some(s) && dir.Present?
    {
      Disk.LoadReturnsNewest(dir, s, crypto.sha256);
      Disk.HoldsIsPresent(dir, s, crypto.sha256);
    }
  }

  lemma InvIsValid(s: State)
    requires Inv(s)
    ensures ValidState(s)
  {
  }

  /** What an operation would commit is a reachable state of its application; it names the release of the
      package, or the one rolled back to, and otherwise only what was named before. */
  lemma WantedIsSound(current: Option<State>, e: DeviceEvent, crypto: Crypto)
    requires !e.PowerLoss? && WantedBy(current, e, crypto).Some?
    requires current.Some? ==> Inv(current.value) && current.value.appId == Target(e, crypto)
    ensures
      var t := WantedBy(current, e, crypto).value;
      && Inv(t) && t.appId == Target(e, crypto)
      && (current.Some? ==>
            t.keyId == current.value.keyId && (t == current.value || t.generation == current.value.generation + 1))
      && (e.InstallEvent? ==>
            && crypto.sha512(e.package).Some?
            && var m := crypto.verify(e.package).manifest;
            t.keyId == m.keyId && t.current == m.releaseCounter && t.currentDigest == crypto.sha512(e.package).value
            && (t.previous != 0 ==>
                  && current.Some?
                  && (t == current.value
                      || (t.previous == current.value.current && t.previousDigest == current.value.currentDigest))))
      && (e.RollbackEvent? ==>
            && current.Some? && t.previous == 0
            && t.current == current.value.previous != 0 && t.currentDigest == current.value.previousDigest)
  {
  }

  /** An operation that commits has loaded the state that is there, if it did not take an older one for it. */
  lemma CommitsWhatIsActive(d: Storage, e: DeviceEvent, crypto: Crypto)
    requires !e.PowerLoss? && Sees(d, e, crypto) && Commits(d, e, crypto)
    ensures Seen(d, Target(e, crypto), e.faults, crypto) == Active(d, Target(e, crypto), crypto)
  {
    var k := PolicyOf(d, Target(e, crypto)).visible;
    Disk.SightedMeans(k, Target(e, crypto), crypto.sha256, e.faults);
    Disk.BlankLoadsNothing(Target(e, crypto), crypto.sha256);
    hide Disk.LoadFaulty, Disk.Load, Disk.Persisted, Perform, Staged, WantedBy;
  }

  lemma OperationKeepsPolicies(d: Storage, e: DeviceEvent, crypto: Crypto)
    requires !e.PowerLoss? && Available(crypto.sha256) && PoliciesOk(d, crypto) && EnvOk(d, e, crypto)
    requires Sees(d, e, crypto)
    ensures
      var appId := Target(e, crypto);
      var current := Active(d, appId, crypto);
      var wanted := WantedBy(current, e, crypto);
      var (done, lost, ok) := Perform(d, e, crypto);
      && PoliciesOk(done, crypto)
      && (forall other :: other != appId ==> PolicyOf(done, other) == PolicyOf(d, other))
      && (forall dir :: dir in Disk.Outcomes(PolicyOf(done, appId)) ==>
            || dir in Disk.Outcomes(PolicyOf(d, appId)) || LoadedIn(dir, appId, crypto).None?
            || (Commits(d, e, crypto) && LoadedIn(dir, appId, crypto) in {current, wanted}))
      && (Active(done, appId, crypto) == current || (Commits(d, e, crypto) && Active(done, appId, crypto) == wanted))
      && (ok ==>
            && wanted.Some? && Commits(d, e, crypto)
            && Runs.SettledOn(PolicyOf(done, appId), wanted.value, crypto.sha256))
  {
    hide PolicyOk, Inv, Available, Disk.Load, Disk.LoadFaulty, Disk.Persisted, Sees;
    hide Disk.TornOk, Disk.Atomic, WantedBy, Perform, Runs.SettledOn, Disk.Outcomes;
    var appId := Target(e, crypto);
    var current := Active(d, appId, crypto);
    var (done, lost, ok) := Perform(d, e, crypto);
    assert PolicyOk(PolicyOf(d, appId), appId, crypto);
    CommitsOrStops(d, e, crypto);
    if Commits(d, e, crypto) {
      CommitsWhatIsActive(d, e, crypto);
      ActiveIsSound(d, appId, crypto);
      WantedIsSound(current, e, crypto);
      CommitKeeps(PolicyOf(d, appId), current, WantedBy(current, e, crypto).value, appId, crypto, e.persistEnv);
    }
    forall other
      ensures PolicyOk(PolicyOf(done, other), other, crypto)
    {
      assert PolicyOk(PolicyOf(d, other), other, crypto);
    }
  }

  lemma ActiveIsSound(d: Storage, appId: seq<byte>, crypto: Crypto)
    requires PolicyOk(PolicyOf(d, appId), appId, crypto)
    ensures
      var current := Active(d, appId, crypto);
      current.Some? ==> Inv(current.value) && current.value.appId == appId
  {
    var k := PolicyOf(d, appId);
    assert k.visible in Disk.Outcomes(k);
    assert Sound(k.visible, appId, crypto);
    hide Disk.Load, Inv, Disk.Holds;
  }

  lemma LossKeepsPolicies(d: Storage, after: Storage, crypto: Crypto)
    requires PoliciesOk(d, crypto) && Left(d, after)
    ensures PoliciesOk(after, crypto)
  {
    hide Sound;
    forall appId
      ensures PolicyOk(PolicyOf(after, appId), appId, crypto)
    {
      assert PolicyOk(PolicyOf(d, appId), appId, crypto);
      assert Runs.Left(PolicyOf(d, appId), PolicyOf(after, appId));
    }
  }

  lemma StepKeepsPolicies(d: Storage, e: DeviceEvent, after: Storage, crypto: Crypto)
    requires Available(crypto.sha256) && PoliciesOk(d, crypto) && Follows(d, e, after, crypto) && Sees(d, e, crypto)
    ensures PoliciesOk(after, crypto)
  {
    hide PoliciesOk, EnvOk, Perform, Left, Available, Sees;
    if e.PowerLoss? {
      LossKeepsPolicies(d, after, crypto);
    } else {
      OperationKeepsPolicies(d, e, crypto);
      var (done, lost, _) := Perform(d, e, crypto);
      if lost {
        LossKeepsPolicies(done, after, crypto);
      }
    }
  }

  /** In every sighted run, whatever fails and whenever power is lost, all that can ever load is reachable. */
  lemma {:induction false} RunKeepsPolicies(
    states: seq<Storage>, events: seq<DeviceEvent>, crypto: Crypto, i: nat)
    requires SightedRun(states, events, crypto) && i < |states|
    ensures PoliciesOk(states[i], crypto)
  {
    hide Follows, PoliciesOk, Available, Sees;
    if i == 0 {
      NothingInstalled(crypto);
    } else {
      RunKeepsPolicies(states, events, crypto, i - 1);
      StepKeepsPolicies(states[i - 1], events[i - 1], states[i], crypto);
    }
  }

  lemma NothingInstalled(crypto: Crypto)
    ensures PoliciesOk(EMPTY_STORAGE, crypto)
  {
  }

  /** After which events a caller can rely on the state an application loads: a power loss, or an operation on it
      that reports success. */
  ghost predicate Confirms(d: Storage, e: DeviceEvent, appId: seq<byte>, crypto: Crypto) {
    e.PowerLoss?
    || var (_, lost, ok) := Perform(d, e, crypto);
       lost || (ok && Target(e, crypto) == appId)
  }

  /** What an event does to one application's store is an event of that store, and as good a confirmation: an
      operation on another application, or one that stops early, leaves it as it is. */
  lemma ProjectsToStore(d: Storage, e: DeviceEvent, after: Storage, appId: seq<byte>, crypto: Crypto)
    returns (x: Runs.StoreEvent)
    requires Active(d, appId, crypto).Some? && Follows(d, e, after, crypto) && Sees(d, e, crypto)
    ensures Runs.Follows(PolicyOf(d, appId), x, PolicyOf(after, appId), appId, crypto.sha256)
    ensures Runs.Sees(PolicyOf(d, appId), x, appId, crypto.sha256)
    ensures Runs.Confirms(PolicyOf(d, appId), x, appId, crypto.sha256) <==> Confirms(d, e, appId, crypto)
  {
    hide Disk.LoadFaulty, Disk.Load, Disk.Persisted, Disk.TornOk, Disk.Atomic, Perform, Commits, Runs.Left;
    if e.PowerLoss? {
      return Runs.PowerLoss;
    }
    if appId == Target(e, crypto) && Commits(d, e, crypto) {
      CommitsWhatIsActive(d, e, crypto);
      CommitIsOperation(d, e, crypto);
      return Runs.Operation(EventOf(e, crypto), e.persistEnv, e.faults);
    }
    OthersUntouched(d, e, appId, crypto);
    x := if Perform(d, e, crypto).1 then Runs.PowerLoss else Runs.Operation(Reload, e.persistEnv, Disk.CLEAR);
    LoadIsClear(PolicyOf(d, appId).visible, appId, crypto);
  }

  lemma LoadIsClear(dir: Disk.Directory, appId: seq<byte>, crypto: Crypto)
    ensures Disk.Load(dir, appId, crypto.sha256) == Disk.LoadFaulty(dir, appId, crypto.sha256, Disk.CLEAR)
    ensures Disk.Sighted(dir, appId, crypto.sha256, Disk.CLEAR)
  {
    hide Disk.LoadFaulty;
  }

  lemma OthersUntouched(d: Storage, e: DeviceEvent, appId: seq<byte>, crypto: Crypto)
    requires !e.PowerLoss? && !(appId == Target(e, crypto) && Commits(d, e, crypto))
    ensures PolicyOf(Perform(d, e, crypto).0, appId) == PolicyOf(d, appId)
    ensures appId == Target(e, crypto) ==> !Perform(d, e, crypto).2
  {
    hide Disk.LoadFaulty, Disk.Persisted, Perform, Staged, WantedBy;
    CommitsOrStops(d, e, crypto);
  }

  lemma CommitIsOperation(d: Storage, e: DeviceEvent, crypto: Crypto)
    requires !e.PowerLoss? && Commits(d, e, crypto) && Seen(d, Target(e, crypto), e.faults, crypto).Some?
    ensures
      var appId := Target(e, crypto);
      var (done, lost, ok) := Perform(d, e, crypto);
      var (after, report) :=
        Runs.Operate(PolicyOf(d, appId), appId, EventOf(e, crypto), crypto.sha256, e.persistEnv, e.faults);
      && after == PolicyOf(done, appId) && (report.Lost? <==> lost)
      && (ok <==> report.Answered? && Disk.Succeeded(Some(report.status)))
  {
    hide Disk.LoadFaulty, Disk.Persisted, Perform, Staged, Runs.Wanted;
  }

  /** A run of a device is, for each application from a point at which a state loads, a run of its store. */
  lemma {:induction false} ProjectRun(
    states: seq<Storage>, events: seq<DeviceEvent>, crypto: Crypto, s: State, i: nat, j: nat)
    returns (disks: seq<Disk.Disk>, steps: seq<Runs.StoreEvent>)
    requires SightedRun(states, events, crypto) && i <= j < |states|
    requires Runs.Boots(PolicyOf(states[i], s.appId), s, crypto.sha256)
    ensures |disks| == j - i + 1 && Runs.SightedRun(disks, steps, s.appId, crypto.sha256)
    ensures forall k :: 0 <= k < |disks| ==> disks[k] == PolicyOf(states[i + k], s.appId)
    ensures forall k :: 0 <= k < |steps| ==>
      Runs.Confirms(disks[k], steps[k], s.appId, crypto.sha256)
        == Confirms(states[i + k], events[i + k], s.appId, crypto)
  {
    hide Follows, Runs.Follows, Runs.Boots, Runs.Sees, Sees, Inv, Available, Confirms, Runs.Confirms, PolicyOf, Disk.Load;
    if i == j {
      disks, steps := [PolicyOf(states[i], s.appId)], [];
    } else {
      disks, steps := ProjectRun(states, events, crypto, s, i, j - 1);
      StoreLoads(disks, steps, s, crypto);
      var x := ProjectsToStore(states[j - 1], events[j - 1], states[j], s.appId, crypto);
      disks, steps := disks + [PolicyOf(states[j], s.appId)], steps + [x];
    }
  }

  lemma StoreLoads(disks: seq<Disk.Disk>, steps: seq<Runs.StoreEvent>, s: State, crypto: Crypto)
    requires Available(crypto.sha256) && Runs.SightedRun(disks, steps, s.appId, crypto.sha256)
    requires Runs.Boots(disks[0], s, crypto.sha256)
    ensures Disk.Load(disks[|disks| - 1].visible, s.appId, crypto.sha256).1.Some?
  {
    hide Runs.Follows, Runs.Boots, Runs.Sees, Inv, Available, Disk.Load, Protects, Runs.Confirms;
    Runs.NoRollbackOnDisk(disks, steps, s, crypto.sha256, 0, |disks| - 1);
  }

  lemma StepTracks(
    d: Storage, e: DeviceEvent, after: Storage, floor: State, top: State, crypto: Crypto) returns (t: State)
    requires Available(crypto.sha256) && Runs.Tracks(PolicyOf(d, floor.appId), floor, top, crypto.sha256)
    requires Follows(d, e, after, crypto) && Sees(d, e, crypto)
    ensures Runs.Tracks(PolicyOf(after, floor.appId), floor, t, crypto.sha256)
  {
    var k := PolicyOf(d, floor.appId);
    Runs.TracksLoads(k, floor, top, crypto.sha256);
    hide Follows, Runs.Tracks, Runs.Follows, Available, Disk.Load, Disk.Holds, Leads, Inv, Sees, Runs.Sees;
    var x := ProjectsToStore(d, e, after, floor.appId, crypto);
    t := Runs.StepTracks(k, x, PolicyOf(after, floor.appId), floor, top, crypto.sha256);
  }

  /** From any point of a run at which an application's store is settled on a state, all that is visible
      later, and all that power loss may leave of it, follows the lifecycle from that state. */
  lemma {:induction false} DeviceTracks(
    states: seq<Storage>, events: seq<DeviceEvent>, crypto: Crypto, s: State, i: nat, j: nat) returns (top: State)
    requires SightedRun(states, events, crypto) && i <= j < |states| && Inv(s)
    requires Runs.SettledOn(PolicyOf(states[i], s.appId), s, crypto.sha256)
    ensures Runs.Tracks(PolicyOf(states[j], s.appId), s, top, crypto.sha256)
  {
    hide Follows, Runs.SettledOn, Runs.Tracks, Inv, Available, Sees;
    if i == j {
      Runs.SettledTracks(PolicyOf(states[i], s.appId), s, crypto.sha256);
      return s;
    }
    var before := DeviceTracks(states, events, crypto, s, i, j - 1);
    top := StepTracks(states[j - 1], events[j - 1], states[j], s, before, crypto);
  }

  /** An application's store is settled on what loads after a power loss, and after a reported success. */
  lemma ConfirmedIsSettled(states: seq<Storage>, events: seq<DeviceEvent>, crypto: Crypto, appId: seq<byte>, i: nat)
    requires SightedRun(states, events, crypto) && 0 < i < |states|
    requires Confirms(states[i - 1], events[i - 1], appId, crypto) && Active(states[i], appId, crypto).Some?
    ensures
      var s := Active(states[i], appId, crypto).value;
      Runs.SettledOn(PolicyOf(states[i], appId), s, crypto.sha256) && Inv(s) && s.appId == appId
  {
    hide PolicyOk, PoliciesOk, Perform, Runs.SettledOn, Inv, Available;
    hide Disk.Load, WantedBy, EnvOk, Disk.Outcomes, Sees;
    var d, e := states[i - 1], events[i - 1];
    assert Follows(d, e, states[i], crypto) && Sees(d, e, crypto);
    RunKeepsPolicies(states, events, crypto, i - 1);
    RunKeepsPolicies(states, events, crypto, i);
    ActiveOfRun(states[i], appId, crypto);
    if e.PowerLoss? || Perform(d, e, crypto).1 {
      assert exists k: Disk.Disk :: Runs.Left(k, PolicyOf(states[i], appId));
      LeftIsSettled(states[i], appId, crypto);
    } else {
      OperationKeepsPolicies(d, e, crypto);
      var committed := WantedBy(Active(d, appId, crypto), e, crypto).value;
      ActiveOfRun(d, appId, crypto);
      WantedIsSound(Active(d, appId, crypto), e, crypto);
      Runs.SettledLoads(PolicyOf(states[i], appId), committed, crypto.sha256);
    }
  }

  lemma LeftIsSettled(d: Storage, appId: seq<byte>, crypto: Crypto)
    requires PoliciesOk(d, crypto) && Active(d, appId, crypto).Some?
    requires exists k: Disk.Disk :: Runs.Left(k, PolicyOf(d, appId))
    ensures Runs.SettledOn(PolicyOf(d, appId), Active(d, appId, crypto).value, crypto.sha256)
  {
    var k := PolicyOf(d, appId);
    assert PolicyOk(k, appId, crypto) && Sound(k.visible, appId, crypto);
    hide Disk.Load, Disk.Holds, Inv;
  }

  /** Across a whole run of the device: what an application loads after a power loss, or after an operation on it
      that reported success, is protected from then on. A state always loads, and it keeps everything that
      protects that one. The high-water marks do not fall, no release counter is seen with a second digest, and
      what was quarantined never returns. */
  lemma DeviceNeverRollsBack(
    states: seq<Storage>, events: seq<DeviceEvent>, crypto: Crypto, appId: seq<byte>, i: nat, j: nat)
    requires SightedRun(states, events, crypto) && 0 < i <= j < |states|
    requires Confirms(states[i - 1], events[i - 1], appId, crypto) && Active(states[i], appId, crypto).Some?
    ensures
      var a, b := Active(states[i], appId, crypto), Active(states[j], appId, crypto);
      b.Some? && Protects(a.value, b.value)
  {
    hide Follows, Runs.SettledOn, Runs.Tracks, Inv, Available, Protects, Disk.Load, Disk.Holds, Leads, Confirms, Sees;
    ConfirmedIsSettled(states, events, crypto, appId, i);
    var a := Active(states[i], appId, crypto).value;
    var top := DeviceTracks(states, events, crypto, a, i, j);
    var k := PolicyOf(states[j], appId);
    Runs.TracksLoads(k, a, top, crypto.sha256);
    Runs.TracksParts(k, a, top, crypto.sha256);
    LeadsMeansProtects(a, top);
  }

  /** In particular a success that is reported commits a state that loads from then on, or one protected by it. */
  lemma ReportedIsProtected(
    states: seq<Storage>, events: seq<DeviceEvent>, crypto: Crypto, i: nat, j: nat)
    requires SightedRun(states, events, crypto) && i < j < |states|
    requires !events[i].PowerLoss? && Perform(states[i], events[i], crypto).2
    ensures
      var appId := Target(events[i], crypto);
      var committed := WantedBy(Active(states[i], appId, crypto), events[i], crypto);
      var later := Active(states[j], appId, crypto);
      committed.Some? && later.Some? && Protects(committed.value, later.value)
  {
    hide PoliciesOk, PolicyOk, Perform, Runs.SettledOn, Inv, Sees;
    hide Available, Protects, Disk.Load, WantedBy, EnvOk, Disk.Outcomes;
    var d, e := states[i], events[i];
    assert Follows(d, e, states[i + 1], crypto) && Sees(d, e, crypto);
    RunKeepsPolicies(states, events, crypto, i);
    OperationKeepsPolicies(d, e, crypto);
    var appId := Target(e, crypto);
    var current := Active(d, appId, crypto);
    ActiveOfRun(d, appId, crypto);
    WantedIsSound(current, e, crypto);
    SuccessIsNotLost(d, e, crypto);
    Runs.SettledLoads(PolicyOf(states[i + 1], appId), WantedBy(current, e, crypto).value, crypto.sha256);
    DeviceNeverRollsBack(states, events, crypto, appId, i + 1, j);
  }

  /** Nothing since point `c` confirms what the application loads. */
  ghost predicate Quiet(
    states: seq<Storage>, events: seq<DeviceEvent>, appId: seq<byte>, crypto: Crypto, c: nat, i: nat)
    requires |states| == |events| + 1 && c <= i < |states|
  {
    forall k :: c <= k < i ==> !Confirms(states[k], events[k], appId, crypto)
  }

  /** And that is exactly what protects it. After a power loss, at any later point, another power loss keeps whatever
      protects the state an application loads there if and only if the same state loaded at the last event that
      confirmed it. */
  lemma DeviceProtectedExactly(
    states: seq<Storage>, events: seq<DeviceEvent>, crypto: Crypto, appId: seq<byte>, boot: nat, c: nat, i: nat)
    requires SightedRun(states, events, crypto) && 0 < boot <= c <= i < |states|
    requires events[boot - 1].PowerLoss? && Active(states[boot], appId, crypto).Some?
    requires Confirms(states[c - 1], events[c - 1], appId, crypto) && Quiet(states, events, appId, crypto, c, i)
    ensures
      var confirmed, now := Active(states[c], appId, crypto), Active(states[i], appId, crypto);
      && confirmed.Some? && now.Some?
      && (now == confirmed <==> forall dir :: dir in Disk.Outcomes(PolicyOf(states[i], appId)) ==>
            var left := LoadedIn(dir, appId, crypto);
            left.Some? && Protects(now.value, left.value))
  {
    hide Follows, Inv, Available, Protects, Disk.Load, Disk.Holds, Confirms, Sees, Runs.Boots, Disk.Outcomes;
    hide Runs.Follows, Runs.Sees, Runs.Confirms, Runs.SettledOn, PolicyOf;
    var s := Active(states[boot], appId, crypto).value;
    BootedAt(states, events, crypto, appId, boot);
    var disks, steps := ProjectRun(states, events, crypto, s, boot, i);
    assert disks[c - boot] == PolicyOf(states[c], appId) && disks[i - boot] == PolicyOf(states[i], appId);
    assert disks[0] == PolicyOf(states[boot], appId);
    QuietProjects(states, events, crypto, appId, disks, steps, boot, c, i);
    Runs.ProtectedExactly(disks, steps, s, crypto.sha256, c - boot, i - boot);
  }

  lemma QuietProjects(
    states: seq<Storage>, events: seq<DeviceEvent>, crypto: Crypto, appId: seq<byte>,
    disks: seq<Disk.Disk>, steps: seq<Runs.StoreEvent>, boot: nat, c: nat, i: nat)
    requires |states| == |events| + 1 && boot <= c <= i < |states| && |disks| == i - boot + 1 == |steps| + 1
    requires forall k :: 0 <= k < |steps| ==>
      Runs.Confirms(disks[k], steps[k], appId, crypto.sha256)
        == Confirms(states[boot + k], events[boot + k], appId, crypto)
    requires Quiet(states, events, appId, crypto, c, i)
    ensures Runs.Quiet(disks, steps, appId, crypto.sha256, c - boot, i - boot)
  {
    hide Confirms, Runs.Confirms;
    forall k | c - boot <= k < i - boot
      ensures !Runs.Confirms(disks[k], steps[k], appId, crypto.sha256)
    {
      assert !Confirms(states[boot + k], events[boot + k], appId, crypto);
    }
  }

  lemma BootedAt(states: seq<Storage>, events: seq<DeviceEvent>, crypto: Crypto, appId: seq<byte>, boot: nat)
    requires SightedRun(states, events, crypto) && 0 < boot < |states|
    requires events[boot - 1].PowerLoss? && Active(states[boot], appId, crypto).Some?
    ensures
      var s := Active(states[boot], appId, crypto).value;
      s.appId == appId && Runs.Boots(PolicyOf(states[boot], appId), s, crypto.sha256)
  {
    RunKeepsPolicies(states, events, crypto, boot);
    assert Follows(states[boot - 1], events[boot - 1], states[boot], crypto);
    assert Runs.Left(PolicyOf(states[boot - 1], appId), PolicyOf(states[boot], appId));
    var k := PolicyOf(states[boot], appId);
    assert PolicyOk(k, appId, crypto) && Sound(k.visible, appId, crypto);
    hide Disk.Load, Disk.Holds, Inv;
  }

  lemma ActiveOfRun(d: Storage, appId: seq<byte>, crypto: Crypto)
    requires PoliciesOk(d, crypto)
    ensures
      var current := Active(d, appId, crypto);
      current.Some? ==> Inv(current.value) && current.value.appId == appId
  {
    hide PolicyOk;
    ActiveIsSound(d, appId, crypto);
  }

  lemma SuccessIsNotLost(d: Storage, e: DeviceEvent, crypto: Crypto)
    requires !e.PowerLoss? && Perform(d, e, crypto).2
    ensures !Perform(d, e, crypto).1
  {
    hide Install, RollBackApplication;
  }

  /** No state loads, or ever will: the directory is there for good, and holds none. */
  ghost predicate Stuck(k: Disk.Disk, appId: seq<byte>, crypto: Crypto) {
    && k.visible in k.maybe
    && (forall dir :: dir in Disk.Outcomes(k) ==> dir.Present?)
    && forall dir, faults :: dir in Disk.Outcomes(k) ==> Disk.LoadFaulty(dir, appId, crypto.sha256, faults).1.None?
  }

  /** An application whose store is stuck stays so in every run, and no operation on it succeeds. */
  lemma {:induction false} StuckForever(
    states: seq<Storage>, events: seq<DeviceEvent>, crypto: Crypto, appId: seq<byte>, i: nat, j: nat)
    requires DeviceRun(states, events, crypto) && i <= j < |states|
    requires Stuck(PolicyOf(states[i], appId), appId, crypto)
    ensures Stuck(PolicyOf(states[j], appId), appId, crypto)
    ensures j < |events| && !events[j].PowerLoss? && Target(events[j], crypto) == appId ==>
      !Perform(states[j], events[j], crypto).2
  {
    hide Follows, Perform, Stuck;
    if i < j {
      StuckForever(states, events, crypto, appId, i, j - 1);
      StepKeepsStuck(states[j - 1], events[j - 1], states[j], appId, crypto);
    }
    if j < |events| && !events[j].PowerLoss? {
      StuckStops(states[j], events[j], appId, crypto);
    }
  }

  lemma StuckStops(d: Storage, e: DeviceEvent, appId: seq<byte>, crypto: Crypto)
    requires !e.PowerLoss? && Stuck(PolicyOf(d, appId), appId, crypto)
    ensures PolicyOf(Perform(d, e, crypto).0, appId) == PolicyOf(d, appId)
    ensures Target(e, crypto) == appId ==> !Perform(d, e, crypto).2
  {
    assert PolicyOf(d, appId).visible in Disk.Outcomes(PolicyOf(d, appId));
    hide Disk.LoadFaulty, Disk.Persisted, Perform, WantedBy, Staged;
    CommitsOrStops(d, e, crypto);
  }

  lemma StepKeepsStuck(d: Storage, e: DeviceEvent, after: Storage, appId: seq<byte>, crypto: Crypto)
    requires Stuck(PolicyOf(d, appId), appId, crypto) && Follows(d, e, after, crypto)
    ensures Stuck(PolicyOf(after, appId), appId, crypto)
  {
    hide Perform, EnvOk, Disk.LoadFaulty;
    if !e.PowerLoss? {
      StuckStops(d, e, appId, crypto);
    }
    var done := if e.PowerLoss? then d else Perform(d, e, crypto).0;
    if PolicyOf(after, appId) != PolicyOf(done, appId) {
      assert Runs.Left(PolicyOf(done, appId), PolicyOf(after, appId));
    }
  }

  /** A first installation that leaves the store uninitialized leaves it stuck exactly when the directory
      had been opened: an application whose first commit then fails can never be installed again. */
  lemma UninitializedIsStuck(s: State, env: Disk.PersistEnv, crypto: Crypto)
    requires Available(crypto.sha256) && ValidState(s)
    requires
      var after := Disk.Persisted(Disk.Settled(Disk.Absent), s, crypto.sha256, env).0;
      Disk.Load(after.visible, s.appId, crypto.sha256).0 == Disk.Uninitialized
    ensures
      var after := Disk.Persisted(Disk.Settled(Disk.Absent), s, crypto.sha256, env).0;
      Stuck(after, s.appId, crypto) <==> env.opening.Opened?
  {
    Disk.UninitializedExactly(s, crypto.sha256, env);
    Disk.BlankLoadsNothing(s.appId, crypto.sha256);
    hide Disk.Load, Disk.LoadFaulty, Disk.Persisted, ValidState, Available;
    var after := Disk.Persisted(Disk.Settled(Disk.Absent), s, crypto.sha256, env).0;
    assert after.entryUnsynced ==> Disk.Absent in Disk.Outcomes(after);
  }
}
