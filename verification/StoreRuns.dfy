/** Runs of operations on the state store, with power lost during any of them or between them. */
module StoreRuns {
  import opened Bytes
  import opened ReleaseState
  import opened ReleaseLifecycle
  import opened StateStore

  /** Power loss changes nothing about what loads: everything it may leave holds the same state. */
  ghost predicate SettledOn(k: Disk, s: State, sha: Sha256) {
    && Holds(k.visible, s, sha) && k.visible in k.maybe && !k.entryUnsynced
    && forall d :: d in k.maybe ==> Holds(d, s, sha)
  }

  /** What power loss may leave lies between two states. */
  ghost predicate Between(d: Directory, floor: State, top: State, sha: Sha256) {
    exists t :: Holds(d, t, sha) && Leads(floor, t) && Leads(t, top)
  }

  /** `top` is visible, and power loss falls back no further than to `floor`. */
  ghost predicate Tracks(k: Disk, floor: State, top: State, sha: Sha256) {
    && Inv(floor) && Leads(floor, top) && Holds(k.visible, top, sha)
    && k.visible in k.maybe && !k.entryUnsynced
    && forall d :: d in k.maybe ==> Between(d, floor, top, sha)
  }

  lemma SettledTracks(k: Disk, s: State, sha: Sha256)
    requires SettledOn(k, s, sha) && Inv(s)
    ensures Tracks(k, s, s, sha)
  {
    hide Inv, Holds, Leads;
    LeadsToItself(s);
  }

  /** What one lifecycle event asks to be written: nothing when it is refused. */
  function Wanted(s: State, e: Event): Option<State> {
    match e
    case Activate(c, d) => Activation(c, d, Some(s))
    case RollBack(f) => Rollback(s, f)
    case Reload => None
  }

  /** Torn writes are admitted except where a generation is written again. */
  ghost predicate EnvOk(s: State, e: Event, sha: Sha256, env: PersistEnv) {
    && TornOk(env.first, sha) && TornOk(env.second, sha)
    && (Wanted(s, e) == Some(s) ==> Atomic(env.first))
  }

  lemma WantedIsNext(s: State, e: Event)
    requires Inv(s) && Wanted(s, e).Some?
    ensures
      var t := Wanted(s, e).value;
      t == After(s, e) && ValidState(t) && t.appId == s.appId && (t == s || t.generation == s.generation + 1)
  {
  }

  lemma BetweenStep(d: Directory, floor: State, top: State, e: Event, sha: Sha256)
    requires Between(d, floor, top, sha)
    ensures Between(d, floor, After(top, e), sha)
  {
    hide Holds, Leads, After;
    var t :| Holds(d, t, sha) && Leads(floor, t) && Leads(t, top);
    LeadsStep(t, top, e);
  }

  lemma HeldIsBetween(d: Directory, floor: State, t: State, top: State, sha: Sha256)
    requires Holds(d, t, sha) && Leads(floor, t) && Leads(t, top)
    ensures Between(d, floor, top, sha)
  {
  }

  /** Persisting what an event asks for keeps track: what is visible is the state before or after the
      event, and power loss still falls back no further than the floor. After a reported success it
      does not fall back at all. */
  lemma PersistTracks(k: Disk, floor: State, top: State, e: Event, sha: Sha256, env: PersistEnv)
    requires Available(sha) && Tracks(k, floor, top, sha) && EnvOk(top, e, sha, env) && Wanted(top, e).Some?
    ensures
      var t := Wanted(top, e).value;
      var (after, status) := Persisted(k, t, sha, env);
      && t == After(top, e)
      && (Tracks(after, floor, top, sha) || Tracks(after, floor, t, sha))
      && (Succeeded(status) ==> SettledOn(after, t, sha))
  {
    hide *;
    TracksParts(k, floor, top, sha);
    LeadsProtects(floor, top);
    WantedIsNext(top, e);
    EnvParts(top, e, sha, env);
    var t := Wanted(top, e).value;
    var (after, status) := Persisted(k, t, sha, env);
    if t == top {
      PersistSameGeneration(k, top, sha, env);
    } else {
      PersistNextGeneration(k, top, t, sha, env);
    }
    LeadsStep(floor, top, e);
    ChangeTracks(k, after, floor, top, e, sha);
    if Succeeded(status) {
      OnlyNewIsSettled(k, after, top, t, sha);
    }
  }

  lemma TracksParts(k: Disk, floor: State, top: State, sha: Sha256)
    requires Tracks(k, floor, top, sha)
    ensures Inv(floor) && Leads(floor, top) && Holds(k.visible, top, sha) && k.visible in k.maybe && !k.entryUnsynced
  {
  }

  lemma EnvParts(s: State, e: Event, sha: Sha256, env: PersistEnv)
    requires EnvOk(s, e, sha, env)
    ensures TornOk(env.first, sha) && TornOk(env.second, sha) && (Wanted(s, e) == Some(s) ==> Atomic(env.first))
  {
  }

  lemma OnlyNewIsSettled(k: Disk, after: Disk, s: State, t: State, sha: Sha256)
    requires OldOrNew(k, after, s, t, sha) && OnlyNew(after, t, sha) && k.visible in k.maybe && !k.entryUnsynced
    ensures SettledOn(after, t, sha)
  {
    hide Holds;
  }

  lemma ChangeTracks(k: Disk, after: Disk, floor: State, top: State, e: Event, sha: Sha256)
    requires Tracks(k, floor, top, sha) && OldOrNew(k, after, top, After(top, e), sha)
    ensures Tracks(after, floor, top, sha) || Tracks(after, floor, After(top, e), sha)
  {
    hide Holds, Leads, After, Inv, Between;
    var t := After(top, e);
    LeadsStep(floor, top, e);
    LeadsToItself(top);
    LeadsToItself(t);
    LeadsStep(top, top, e);
    var last := if Holds(after.visible, t, sha) then t else top;
    forall d | d in after.maybe
      ensures Between(d, floor, last, sha)
    {
      if d in k.maybe {
        if last == t {
          BetweenStep(d, floor, top, e, sha);
        }
      } else if Holds(d, top, sha) {
        HeldIsBetween(d, floor, top, last, sha);
      } else {
        HeldIsBetween(d, floor, t, last, sha);
      }
    }
  }

  /** Power loss leaves a store that still tracks, from some state in between. */
  lemma LossTracks(k: Disk, floor: State, top: State, d: Directory, sha: Sha256) returns (t: State)
    requires Tracks(k, floor, top, sha) && d in Outcomes(k)
    ensures Tracks(StateStore.Settled(d), floor, t, sha) && Holds(d, t, sha)
  {
    hide Holds, Leads, Inv;
    t :| Holds(d, t, sha) && Leads(floor, t) && Leads(t, top);
    LeadsToItself(t);
    HeldIsBetween(d, floor, t, t, sha);
  }

  /** How an operation ends: without having anything to persist, with a status, or with power lost. */
  datatype Report = Idle | Answered(status: StoreStatus) | Lost

  /** One operation on the store: load, compute the next state, persist it. */
  function Operate(k: Disk, appId: seq<byte>, e: Event, sha: Sha256, env: PersistEnv, f: Faults): (Disk, Report) {
    match LoadFaulty(k.visible, appId, sha, f).1
    case None => (k, Idle)
    case Some(s) =>
      match Wanted(s, e)
      case None => (k, Idle)
      case Some(t) =>
        var (after, status) := Persisted(k, t, sha, env);
        (after, if status.None? then Lost else Answered(status.value))
  }

  datatype StoreEvent = Operation(event: Event, env: PersistEnv, faults: Faults) | PowerLoss

  ghost predicate Left(k: Disk, after: Disk) { exists d :: d in Outcomes(k) && after == StateStore.Settled(d) }

  /** What a store may be after an event. */
  ghost predicate Follows(k: Disk, e: StoreEvent, after: Disk, appId: seq<byte>, sha: Sha256) {
    match e
    case PowerLoss => Left(k, after)
    case Operation(event, env, faults) =>
      && var loaded := LoadFaulty(k.visible, appId, sha, faults).1;
      && (loaded.Some? ==> EnvOk(loaded.value, event, sha, env))
      && var (done, report) := Operate(k, appId, event, sha, env, faults);
      && (if report.Lost? then Left(done, after) else after == done)
  }

  ghost predicate StoreRun(disks: seq<Disk>, events: seq<StoreEvent>, appId: seq<byte>, sha: Sha256) {
    && |disks| == |events| + 1
    && forall i :: 0 <= i < |events| ==> Follows(disks[i], events[i], disks[i + 1], appId, sha)
  }

  /** The operation, if it is one, does not take an older state for the one that is there. */
  predicate Sees(k: Disk, e: StoreEvent, appId: seq<byte>, sha: Sha256) {
    e.Operation? ==> Sighted(k.visible, appId, sha, e.faults)
  }

  ghost predicate SightedRun(disks: seq<Disk>, events: seq<StoreEvent>, appId: seq<byte>, sha: Sha256) {
    && StoreRun(disks, events, appId, sha)
    && forall i :: 0 <= i < |events| ==> Sees(disks[i], events[i], appId, sha)
  }

  lemma SameApplication(floor: State, top: State)
    requires Inv(floor) && Leads(floor, top)
    ensures top.appId == floor.appId
  {
    LeadsProtects(floor, top);
  }

  /** A step leads on from the state that was visible, unless power is lost. */
  lemma StepTracks(k: Disk, e: StoreEvent, after: Disk, floor: State, top: State, sha: Sha256) returns (t: State)
    requires Available(sha) && Tracks(k, floor, top, sha) && Follows(k, e, after, floor.appId, sha)
    requires Sees(k, e, floor.appId, sha)
    ensures Tracks(after, floor, t, sha)
    ensures e.Operation? && !Operate(k, floor.appId, e.event, sha, e.env, e.faults).1.Lost? ==> Leads(top, t)
  {
    TracksParts(k, floor, top, sha);
    SameApplication(floor, top);
    LoadReturnsNewest(k.visible, top, sha);
    hide Holds, Leads, Inv, Persisted, LoadFaulty, Load, Wanted, EnvOk, Available, Tracks, Outcomes;
    if e.PowerLoss? {
      var d :| d in Outcomes(k) && after == StateStore.Settled(d);
      t := LossTracks(k, floor, top, d, sha);
    } else {
      LeadsToItself(top);
      var seen, next := LoadFaulty(k.visible, floor.appId, sha, e.faults).1, Wanted(top, e.event);
      SightedMeans(k.visible, floor.appId, sha, e.faults);
      t := top;
      if seen.Some? && next.Some? {
        PersistTracks(k, floor, top, e.event, sha, e.env);
        LeadsStep(top, top, e.event);
        var (done, status) := Persisted(k, next.value, sha, e.env);
        t := if Tracks(done, floor, top, sha) then top else next.value;
        if status.None? {
          var d :| d in Outcomes(done) && after == StateStore.Settled(d);
          t := LossTracks(done, floor, t, d, sha);
        }
      }
    }
  }

  /** Every sighted run of operations on a store that was settled at its start, with power lost anywhere, follows
      the lifecycle: what is visible at any point, and what power loss may leave of it, is a state that
      some events lead to from the one at the start. */
  lemma {:induction false} StoreRefinesLifecycle(
    disks: seq<Disk>, events: seq<StoreEvent>, s: State, sha: Sha256, j: nat) returns (top: State)
    requires Available(sha) && SightedRun(disks, events, s.appId, sha) && j < |disks|
    requires SettledOn(disks[0], s, sha) && Inv(s)
    ensures Tracks(disks[j], s, top, sha)
  {
    hide SettledOn, Tracks, Follows, Inv, Available, Sees;
    if j == 0 {
      SettledTracks(disks[0], s, sha);
      return s;
    }
    var before := StoreRefinesLifecycle(disks, events, s, sha, j - 1);
    top := StepTracks(disks[j - 1], events[j - 1], disks[j], s, before, sha);
  }

  lemma RunFrom(disks: seq<Disk>, events: seq<StoreEvent>, appId: seq<byte>, sha: Sha256, i: nat)
    requires SightedRun(disks, events, appId, sha) && i < |disks|
    ensures |disks| == |events| + 1 && SightedRun(disks[i..], events[i..], appId, sha)
  {
    hide Follows, Sees;
  }

  lemma SettledRun(disks: seq<Disk>, events: seq<StoreEvent>, a: State, sha: Sha256, i: nat, j: nat)
    returns (top: State)
    requires Available(sha) && SightedRun(disks, events, a.appId, sha) && i <= j < |disks|
    requires SettledOn(disks[i], a, sha) && Inv(a)
    ensures Tracks(disks[j], a, top, sha) && top.appId == a.appId
    ensures Load(disks[j].visible, a.appId, sha).1 == Some(top) && Protects(a, top)
  {
    hide SettledOn, Tracks, Follows, Inv, Available, Protects, Load, Holds, Leads, Sees, SightedRun;
    RunFrom(disks, events, a.appId, sha, i);
    top := StoreRefinesLifecycle(disks[i..], events[i..], a, sha, j - i);
    assert disks[i..][j - i] == disks[j];
    TracksParts(disks[j], a, top, sha);
    SameApplication(a, top);
    LoadReturnsNewest(disks[j].visible, top, sha);
    LeadsMeansProtects(a, top);
  }

  /** After which events a caller can rely on what it loads: a power loss, or a commit that reports success. */
  predicate Confirms(k: Disk, e: StoreEvent, appId: seq<byte>, sha: Sha256) {
    e.PowerLoss?
    || var report := Operate(k, appId, e.event, sha, e.env, e.faults).1;
       report.Lost? || (report.Answered? && Succeeded(Some(report.status)))
  }

  /** The store when power comes on. */
  ghost predicate Boots(k: Disk, s: State, sha: Sha256) {
    k == StateStore.Settled(k.visible) && Holds(k.visible, s, sha) && Inv(s)
  }

  lemma BootIsSettled(k: Disk, s: State, sha: Sha256)
    requires Boots(k, s, sha)
    ensures SettledOn(k, s, sha) && Inv(s)
  {
    hide Holds, Inv;
  }

  /** A confirming event leaves the store settled on the state that loads. */
  lemma ConfirmedIsSettled(k: Disk, e: StoreEvent, after: Disk, floor: State, top: State, sha: Sha256)
    returns (t: State)
    requires Available(sha) && Tracks(k, floor, top, sha) && Follows(k, e, after, floor.appId, sha)
    requires Sees(k, e, floor.appId, sha) && Confirms(k, e, floor.appId, sha)
    ensures SettledOn(after, t, sha) && Leads(floor, t) && Inv(t)
  {
    TracksParts(k, floor, top, sha);
    SameApplication(floor, top);
    LoadReturnsNewest(k.visible, top, sha);
    hide Holds, Leads, Inv, Persisted, LoadFaulty, Load, Wanted, EnvOk, Available, Tracks, Outcomes;
    SightedMeans(k.visible, floor.appId, sha, if e.Operation? then e.faults else CLEAR);
    if e.PowerLoss? {
      var d :| d in Outcomes(k) && after == StateStore.Settled(d);
      t := LossTracks(k, floor, top, d, sha);
      LossSettles(after, d, floor, t, sha);
    } else {
      var next := Wanted(top, e.event);
      PersistTracks(k, floor, top, e.event, sha, e.env);
      LeadsStep(floor, top, e.event);
      LeadsProtects(floor, next.value);
      var (done, status) := Persisted(k, next.value, sha, e.env);
      t := next.value;
      if status.None? {
        var d :| d in Outcomes(done) && after == StateStore.Settled(d);
        t := LossTracks(done, floor, if Tracks(done, floor, top, sha) then top else t, d, sha);
        LossSettles(after, d, floor, t, sha);
      }
    }
  }

  lemma LossSettles(after: Disk, d: Directory, floor: State, t: State, sha: Sha256)
    requires after == StateStore.Settled(d) && Tracks(after, floor, t, sha) && Holds(d, t, sha)
    ensures SettledOn(after, t, sha) && Leads(floor, t) && Inv(t)
  {
    TracksParts(after, floor, t, sha);
    LeadsProtects(floor, t);
    hide Holds, Leads, Inv;
  }

  /** At the start, and after every confirming event, the store is settled on what loads. */
  lemma SettledAt(disks: seq<Disk>, events: seq<StoreEvent>, s: State, sha: Sha256, i: nat) returns (a: State)
    requires Available(sha) && SightedRun(disks, events, s.appId, sha) && i < |disks| && Boots(disks[0], s, sha)
    requires i == 0 || Confirms(disks[i - 1], events[i - 1], s.appId, sha)
    ensures SettledOn(disks[i], a, sha) && Inv(a) && a.appId == s.appId && Leads(s, a)
    ensures Load(disks[i].visible, s.appId, sha).1 == Some(a)
  {
    hide SettledOn, Tracks, Follows, Inv, Available, Load, Holds, Leads, Sees, Confirms, Boots;
    BootIsSettled(disks[0], s, sha);
    if i == 0 {
      a := s;
      LeadsToItself(s);
    } else {
      var top := StoreRefinesLifecycle(disks, events, s, sha, i - 1);
      a := ConfirmedIsSettled(disks[i - 1], events[i - 1], disks[i], s, top, sha);
      SameApplication(s, a);
    }
    SettledLoads(disks[i], a, sha);
  }

  lemma SettledLoads(k: Disk, a: State, sha: Sha256)
    requires Available(sha) && SettledOn(k, a, sha)
    ensures Load(k.visible, a.appId, sha).1 == Some(a)
  {
    LoadReturnsNewest(k.visible, a, sha);
  }

  /** Whole-run anti-rollback on disk, as a caller sees it. What loads after a power loss, or after a commit that
      reported success, is protected from then on: however the run goes on and whenever power is lost, every
      later load returns a state that keeps everything that protects it. */
  lemma NoRollbackOnDisk(disks: seq<Disk>, events: seq<StoreEvent>, s: State, sha: Sha256, i: nat, j: nat)
    requires Available(sha) && SightedRun(disks, events, s.appId, sha) && i <= j < |disks| && Boots(disks[0], s, sha)
    requires i == 0 || Confirms(disks[i - 1], events[i - 1], s.appId, sha)
    ensures
      var a, b := Load(disks[i].visible, s.appId, sha).1, Load(disks[j].visible, s.appId, sha).1;
      a.Some? && b.Some? && Protects(a.value, b.value)
  {
    hide SettledOn, Tracks, Inv, Available, Load, Protects, SightedRun, Confirms, Boots, Leads;
    var a := SettledAt(disks, events, s, sha, i);
    var top := SettledRun(disks, events, a, sha, i, j);
  }

  /** Nothing since point `c` confirms what loads. */
  predicate Quiet(disks: seq<Disk>, events: seq<StoreEvent>, appId: seq<byte>, sha: Sha256, c: nat, i: nat)
    requires |disks| == |events| + 1 && c <= i < |disks|
  {
    forall k :: c <= k < i ==> !Confirms(disks[k], events[k], appId, sha)
  }

  /** After a commit has answered, the state that loads is settled if and only if success was reported or it is the
      one that loaded before. */
  lemma PersistSettlesExactly(k: Disk, s: State, e: Event, sha: Sha256, env: PersistEnv)
    requires Available(sha) && SettledOn(k, s, sha) && Inv(s) && Wanted(s, e).Some? && EnvOk(s, e, sha, env)
    requires Persisted(k, Wanted(s, e).value, sha, env).1.Some?
    ensures
      var (after, status) := Persisted(k, Wanted(s, e).value, sha, env);
      var loaded := Load(after.visible, s.appId, sha).1;
      && loaded in {Some(s), Wanted(s, e)}
      && (SettledOn(after, loaded.value, sha) <==> Succeeded(status) || loaded == Some(s))
  {
    hide *;
    WantedIsNext(s, e);
    EnvParts(s, e, sha, env);
    var t := Wanted(s, e).value;
    var (after, status) := Persisted(k, t, sha, env);
    SettledParts(k, s, sha);
    if t == s {
      PersistSameGeneration(k, s, sha, env);
    } else {
      PersistNextGeneration(k, s, t, sha, env);
    }
    PersistAnswers(k, t, env, sha);
    AnswerSettles(k, after, s, t, status, sha);
  }

  lemma SettledParts(k: Disk, s: State, sha: Sha256)
    requires SettledOn(k, s, sha)
    ensures Holds(k.visible, s, sha) && k.visible.Present? && k.visible in k.maybe && !k.entryUnsynced
  {
    HoldsIsPresent(k.visible, s, sha);
  }

  lemma AnswerSettles(k: Disk, after: Disk, s: State, t: State, status: Option<StoreStatus>, sha: Sha256)
    requires Available(sha) && SettledOn(k, s, sha) && OldOrNew(k, after, s, t, sha) && t.appId == s.appId
    requires Succeeded(status) ==> OnlyNew(after, t, sha)
    requires !Succeeded(status) ==> k.maybe <= after.maybe
    ensures
      var loaded := Load(after.visible, s.appId, sha).1;
      && loaded in {Some(s), Some(t)}
      && (SettledOn(after, loaded.value, sha) <==> Succeeded(status) || loaded == Some(s))
  {
    hide Holds, Load, Available;
    forall u | (u == s || u == t) && Holds(after.visible, u, sha)
      ensures Load(after.visible, s.appId, sha).1 == Some(u)
    {
      LoadReturnsNewest(after.visible, u, sha);
    }
    forall u | Holds(k.visible, u, sha)
      ensures u == s
    {
      HeldOnce(k.visible, s, u, sha);
    }
  }

  /** Quiet events keep what was possible at the last confirmed point, and as long as the same state loads the
      store stays settled on it. */
  lemma QuietStep(k: Disk, e: StoreEvent, after: Disk, a: State, top: State, sha: Sha256) returns (t: State)
    requires Available(sha) && Inv(a) && Tracks(k, a, top, sha) && Follows(k, e, after, a.appId, sha)
    requires Sees(k, e, a.appId, sha) && !Confirms(k, e, a.appId, sha)
    requires top == a ==> SettledOn(k, a, sha)
    ensures Tracks(after, a, t, sha) && k.maybe <= after.maybe && (t == a ==> SettledOn(after, a, sha))
  {
    TracksParts(k, a, top, sha);
    SameApplication(a, top);
    LoadReturnsNewest(k.visible, top, sha);
    t := StepTracks(k, e, after, a, top, sha);
    TracksParts(after, a, t, sha);
    LeadsBack(a, top, t);
    SameApplication(a, t);
    LoadReturnsNewest(after.visible, t, sha);
    SightedMeans(k.visible, a.appId, sha, e.faults);
    hide Holds, Leads, Inv, Persisted, LoadFaulty, Load, Wanted, EnvOk, Available, Tracks, Outcomes, SettledOn;
    var seen, next := LoadFaulty(k.visible, a.appId, sha, e.faults).1, Wanted(top, e.event);
    if seen.Some? && next.Some? {
      LeadsProtects(a, top);
      WantedIsNext(top, e.event);
      HoldsIsPresent(k.visible, top, sha);
      PersistAnswers(k, next.value, e.env, sha);
      if t == a {
        PersistSettlesExactly(k, a, e.event, sha, e.env);
      }
    }
  }

  /** Events that lead away from a state do not lead back to it. */
  lemma LeadsBack(s: State, t: State, u: State)
    requires Inv(s) && Leads(s, t)
    ensures Leads(t, u) && u == s ==> t == s
  {
    if Leads(t, u) && u == s {
      LeadsProtects(s, t);
      LeadsProtects(t, s);
      LeadsMeansProtects(s, t);
      ProtectsBothWays(s, t);
    }
  }

  lemma {:induction false} QuietRun(
    disks: seq<Disk>, events: seq<StoreEvent>, a: State, sha: Sha256, c: nat, i: nat) returns (t: State)
    requires Available(sha) && SightedRun(disks, events, a.appId, sha) && c <= i < |disks|
    requires SettledOn(disks[c], a, sha) && Inv(a) && Quiet(disks, events, a.appId, sha, c, i)
    ensures Tracks(disks[i], a, t, sha) && disks[c].maybe <= disks[i].maybe
    ensures t == a ==> SettledOn(disks[i], a, sha)
  {
    hide SettledOn, Tracks, Inv, Available, Follows, Sees, Confirms;
    if i == c {
      SettledTracks(disks[c], a, sha);
      t := a;
    } else {
      var top := QuietRun(disks, events, a, sha, c, i - 1);
      t := QuietStep(disks[i - 1], events[i - 1], disks[i], a, top, sha);
    }
  }

  /** And that is exactly what protects a state. At any point of a run, power loss keeps whatever protects the state
      that loads there if and only if the same state loaded after the last event that confirmed it, be it the
      start, a power loss or a commit that reported success. */
  lemma ProtectedExactly(disks: seq<Disk>, events: seq<StoreEvent>, s: State, sha: Sha256, c: nat, i: nat)
    requires Available(sha) && SightedRun(disks, events, s.appId, sha) && c <= i < |disks| && Boots(disks[0], s, sha)
    requires c == 0 || Confirms(disks[c - 1], events[c - 1], s.appId, sha)
    requires Quiet(disks, events, s.appId, sha, c, i)
    ensures
      var confirmed, now := Load(disks[c].visible, s.appId, sha).1, Load(disks[i].visible, s.appId, sha).1;
      && confirmed.Some? && now.Some?
      && (now == confirmed <==> forall d :: d in Outcomes(disks[i]) ==>
            var left := Load(d, s.appId, sha).1;
            left.Some? && Protects(now.value, left.value))
  {
    hide SettledOn, Tracks, Inv, Available, Load, Protects, SightedRun, Confirms, Boots, Leads, Quiet, Outcomes;
    var a := SettledAt(disks, events, s, sha, c);
    var t := QuietRun(disks, events, a, sha, c, i);
    TracksLoads(disks[i], a, t, sha);
    if t == a {
      SettledProtects(disks[i], a, sha);
    } else {
      FallsBack(disks[c], disks[i], a, t, sha);
    }
  }

  lemma TracksLoads(k: Disk, floor: State, top: State, sha: Sha256)
    requires Available(sha) && Tracks(k, floor, top, sha)
    ensures Load(k.visible, floor.appId, sha).1 == Some(top)
  {
    TracksParts(k, floor, top, sha);
    SameApplication(floor, top);
    LoadReturnsNewest(k.visible, top, sha);
  }

  lemma SettledProtects(k: Disk, a: State, sha: Sha256)
    requires Available(sha) && SettledOn(k, a, sha) && Inv(a)
    ensures forall d :: d in Outcomes(k) ==> Load(d, a.appId, sha).1 == Some(a) && Protects(a, a)
  {
    hide Holds, Load, Inv, Available, Protects, Leads;
    LeadsToItself(a);
    LeadsMeansProtects(a, a);
    forall d | d in Outcomes(k)
      ensures Load(d, a.appId, sha).1 == Some(a)
    {
      LoadReturnsNewest(d, a, sha);
    }
  }

  lemma FallsBack(before: Disk, k: Disk, a: State, t: State, sha: Sha256)
    requires Available(sha) && SettledOn(before, a, sha) && before.maybe <= k.maybe
    requires Tracks(k, a, t, sha) && t != a
    ensures before.visible in Outcomes(k) && Load(before.visible, a.appId, sha).1 == Some(a) && !Protects(t, a)
  {
    TracksParts(k, a, t, sha);
    LeadsProtects(a, t);
    SettledLoads(before, a, sha);
    hide Holds, Load, Inv, Available, Leads;
    if Protects(t, a) {
      ProtectsBothWays(t, a);
    }
  }

  lemma HeldOnce(d: Directory, s: State, t: State, sha: Sha256)
    requires Holds(d, s, sha) && Holds(d, t, sha)
    ensures s == t
  {
    hide Decode, ReadSlot;
  }

  lemma ProtectsBothWays(s: State, t: State)
    requires Protects(s, t) && NotBefore(t, s)
    ensures s == t
  {
    hide Inv, Retired, Mentions;
  }

  /** A sync that fails leaves a store unsettled: the call reports an error, the new state is visible and
      loads, and power loss still goes back to the old one, which does not protect it. */
  lemma UnsyncedCommitFallsBack(d: Directory, s: State, t: State, sha: Sha256, env: PersistEnv)
    requires Available(sha) && Holds(d, s, sha) && Inv(s) && ValidState(t) && t.generation == s.generation + 1
    requires env.opening.Opened? && env.first.rename == Renamed(SyncFailed) && Encode(t, sha).Ok?
    requires Prepared(Encode(t, sha).value, env.first)
    ensures
      var (after, status) := Persisted(StateStore.Settled(d), t, sha, env);
      && status == Some(IoError) && Holds(after.visible, t, sha)
      && d in Outcomes(after) && !Protects(t, s)
  {
    assert !NotBefore(t, s);
    hide *;
    EncodedSlotDecodes(t, sha);
    ValidHasAppId(t);
    HoldsIsPresent(d, s, sha);
    PersistedOpens(StateStore.Settled(d), t, sha, env);
    UnsyncedWrite(d, s, t, Encode(t, sha).value, env, sha);
    NotBeforeMatters(t, s);
  }

  lemma NotBeforeMatters(a: State, b: State)
    requires !NotBefore(a, b)
    ensures !Protects(a, b)
  {
    hide NotBefore;
  }

  lemma UnsyncedWrite(d: Directory, s: State, t: State, bytes: seq<byte>, env: PersistEnv, sha: Sha256)
    requires d.Present? && Holds(d, s, sha) && ValidState(t) && t.generation == s.generation + 1
    requires env.first.rename == Renamed(SyncFailed) && Prepared(bytes, env.first)
    requires Decode(ReadSlot(File(bytes), false), sha) == Ok(t)
    ensures
      var (after, status) := WriteSlots(StateStore.Settled(d), FirstIsB(t.generation), bytes, env);
      && status == Some(IoError) && Holds(after.visible, t, sha) && d in Outcomes(after)
  {
    hide Decode, Holds, FirstIsB, ReadSlot, Prepared, ValidState;
    PreparedHasRandom(bytes, env.first);
    PutNext(d, s, t, sha, bytes);
  }

  lemma PreparedHasRandom(bytes: seq<byte>, env: WriteEnv)
    requires Prepared(bytes, env)
    ensures env.randomOk
  {
  }

  /** What full success buys: from then on, until the next commit is tried, both slots hold the state, with power
      lost any number of times. So no failure of a load, of whatever event comes next, brings an older state back. */
  lemma {:induction false} WrittenIsRedundant(
    disks: seq<Disk>, events: seq<StoreEvent>, s: State, sha: Sha256, i: nat, j: nat) returns (t: State)
    requires Available(sha) && SightedRun(disks, events, s.appId, sha) && i < j < |disks| && Boots(disks[0], s, sha)
    requires events[i].Operation?
    requires Reported(disks[i], events[i], s.appId, sha) == Answered(Written)
    requires forall k :: i < k < j && events[k].Operation? ==> Reported(disks[k], events[k], s.appId, sha).Idle?
    ensures Redundant(disks[j].visible, t, sha) && disks[j] == StateStore.Settled(disks[j].visible)
    ensures t.appId == s.appId && forall f :: Sighted(disks[j].visible, s.appId, sha, f)
  {
    hide SettledOn, Tracks, Inv, Available, Load, LoadFaulty, Boots, Leads, Holds, Persisted, Wanted, Redundant, Sighted, Outcomes, EnvOk;
    BootIsSettled(disks[0], s, sha);
    if i + 1 < j {
      t := WrittenIsRedundant(disks, events, s, sha, i, j - 1);
      assert Follows(disks[j - 1], events[j - 1], disks[j], s.appId, sha);
      SettledOutcomes(disks[j - 1]);
    } else {
      assert Follows(disks[i], events[i], disks[j], s.appId, sha) && Sees(disks[i], events[i], s.appId, sha);
      var top := StoreRefinesLifecycle(disks, events, s, sha, i);
      t := WrittenHere(disks[i], events[i], s, top, sha);
    }
    forall f
      ensures Sighted(disks[j].visible, s.appId, sha, f)
    {
      RedundantLoads(disks[j].visible, t, sha, f);
    }
  }

  function Reported(k: Disk, e: StoreEvent, appId: seq<byte>, sha: Sha256): Report
    requires e.Operation?
  {
    Operate(k, appId, e.event, sha, e.env, e.faults).1
  }

  lemma SettledOutcomes(k: Disk)
    requires k == StateStore.Settled(k.visible)
    ensures Outcomes(k) == {k.visible}
  {
  }

  lemma WrittenHere(k: Disk, e: StoreEvent, floor: State, top: State, sha: Sha256) returns (t: State)
    requires Available(sha) && Tracks(k, floor, top, sha) && e.Operation? && Sees(k, e, floor.appId, sha)
    requires Reported(k, e, floor.appId, sha) == Answered(Written)
    requires var seen := LoadFaulty(k.visible, floor.appId, sha, e.faults).1;
      seen.Some? ==> EnvOk(seen.value, e.event, sha, e.env)
    ensures
      var after := Operate(k, floor.appId, e.event, sha, e.env, e.faults).0;
      Redundant(after.visible, t, sha) && after == StateStore.Settled(after.visible) && t.appId == floor.appId
  {
    TracksParts(k, floor, top, sha);
    SameApplication(floor, top);
    LoadReturnsNewest(k.visible, top, sha);
    SightedMeans(k.visible, floor.appId, sha, e.faults);
    LeadsProtects(floor, top);
    HoldsIsPresent(k.visible, top, sha);
    hide Holds, Leads, Inv, Persisted, LoadFaulty, Load, Wanted, EnvOk, Available, Tracks, Outcomes, Redundant;
    t := Wanted(top, e.event).value;
    WantedIsNext(top, e.event);
    PersistAnswers(k, t, e.env, sha);
    PersistTracks(k, floor, top, e.event, sha, e.env);
    SettledEntry(Persisted(k, t, sha, e.env).0, t, sha);
  }

  lemma SettledEntry(k: Disk, t: State, sha: Sha256)
    requires SettledOn(k, t, sha)
    ensures !k.entryUnsynced
  {
  }

  /** The input that shows what degraded success leaves open. The newest state is in one slot, the other holds the
      one before; the newest slot cannot be read; and the operation commits something else upon the older state.
      It reports full success, and what protected the newest state is lost. */
  lemma BlindCommitLoses(k: Disk, s: State, t: State, e: Event, sha: Sha256, env: PersistEnv, f: Faults)
    requires Available(sha) && Holds(k.visible, t, sha) && Inv(s) && t.appId == s.appId
    requires DecodeSlot(k.visible, !FirstIsB(t.generation), sha) == Ok(s) && t.generation == s.generation + 1
    requires f == if FirstIsB(t.generation) then Faults(false, false, true) else Faults(false, true, false)
    requires Wanted(s, e).Some? && Wanted(s, e).value.generation == t.generation && Wanted(s, e) != Some(t)
    requires Persisted(k, Wanted(s, e).value, sha, env).1 == Some(Written)
    ensures !Sighted(k.visible, s.appId, sha, f)
    ensures
      var (after, report) := Operate(k, s.appId, e, sha, env, f);
      var loaded := Load(after.visible, s.appId, sha).1;
      report == Answered(Written) && loaded == Wanted(s, e) && !Protects(t, loaded.value)
  {
    FaultyLoad(k.visible, t, sha, f);
    HoldsIsPresent(k.visible, t, sha);
    WantedIsNext(s, e);
    var u := Wanted(s, e).value;
    SameGeneration(t, u);
    PersistAnswers(k, u, env, sha);
    var after := Persisted(k, u, sha, env).0;
    hide Wanted, Inv, LoadFaulty, Sighted, Redundant, Persisted, Available, Decode, ReadSlot, Holds, Protects;
    RedundantLoads(after.visible, u, sha, CLEAR);
    LoadReturnsNewest(after.visible, u, sha);
  }

  lemma SameGeneration(t: State, u: State)
    requires t.generation == u.generation && t != u
    ensures !Protects(t, u)
  {
    hide Inv, Retired, Mentions;
  }
}
