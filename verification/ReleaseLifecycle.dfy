/** Activation and rollback of releases, and what every run of them keeps. */
module ReleaseLifecycle {
  import opened Bytes
  import opened Package
  import opened ReleaseState

  function Max(a: nat, b: nat): nat { if a > b then a else b }

  /** The state after activating `candidate`, or nothing when the transition is rejected. */
  function Activation(candidate: Verification, digest: Digest, current: Option<State>): Option<State> {
    var m := candidate.manifest;
    if !Authenticated(candidate) || m.releaseCounter == 0 || Zero(digest) then None
    else if current.Some? && Refused(m, digest, current.value) then None
    else if current.Some? && m.releaseCounter == current.value.current
         && digest == current.value.currentDigest then current
    else
      var generation := if current.Some? then (current.value.generation + 1) % 0x1_0000_0000_0000_0000 else 1;
      if generation == 0 then None
      else
        var next := match current
          case None =>
            State(m.appId, m.keyId, generation, m.releaseCounter, 0, m.releaseCounter, 0,
                  m.securityEpoch, 0, digest, Zeros(64), digest)
          case Some(c) =>
            var high := Max(m.releaseCounter, c.high);
            State(m.appId, m.keyId, generation, m.releaseCounter, c.current, high, c.quarantined,
                  Max(m.securityEpoch, c.highEpoch), 0, digest, c.currentDigest,
                  if high == c.high then c.highDigest else digest);
        var distinct := if next.previous == next.current
                        then next.(previous := 0, previousDigest := Zeros(64)) else next;
        var cleared := if distinct.quarantined == distinct.current
                       then distinct.(quarantined := 0) else distinct;
        if ValidState(cleared) then Some(cleared) else None
  }

  predicate Refused(m: Manifest, digest: Digest, c: State) {
    || !ValidState(c) || c.appId != m.appId || c.keyId != m.keyId
    || m.releaseCounter < c.high || m.securityEpoch < c.highEpoch
    || m.releaseCounter == c.quarantined
    || (m.releaseCounter == c.high && digest != c.highDigest)
  }

  /** Back to the previous release, quarantining the current one. */
  function Rollback(c: State, recordFailure: bool): Option<State> {
    if !ValidState(c) || c.previous == 0 || c.generation == U64_MAX then None
    else
      var failures: u16 :=
        if recordFailure then if c.failures + 1 < 3 then c.failures + 1 else 3 else 0;
      var next := c.(generation := c.generation + 1, quarantined := c.current,
                     current := c.previous, currentDigest := c.previousDigest,
                     previous := 0, previousDigest := Zeros(64), failures := failures);
      if ValidState(next) then Some(next) else None
  }

  /** The invariant of reachable states. It is stronger than `ValidState`: the current release is
      the highest one unless that one has been quarantined by the last rollback. */
  predicate Inv(s: State) {
    && ValidState(s)
    && s.previous < s.current <= s.high
    && (s.current == s.high || (s.previous == 0 && s.quarantined == s.high))
    && (s.quarantined != 0 ==> s.quarantined != s.previous)
  }

  datatype Event =
    | Activate(candidate: Verification, digest: Digest)
    | RollBack(recordFailure: bool)
    | Reload

  /** The transition an event asks for; a rejected one leaves the state as it is. */
  function After(s: State, e: Event): State {
    match e
    case Activate(c, d) => (match Activation(c, d, Some(s)) case Some(t) => t case None => s)
    case RollBack(f) => (match Rollback(s, f) case Some(t) => t case None => s)
    case Reload => s
  }

  ghost predicate Run(states: seq<State>, events: seq<Event>) {
    && |states| == |events| + 1
    && (exists c, d :: Activation(c, d, None) == Some(states[0]))
    && forall i :: 0 <= i < |events| ==> states[i + 1] == After(states[i], events[i])
  }

  lemma FirstActivationInv(c: Verification, d: Digest)
    requires Activation(c, d, None).Some?
    ensures Inv(Activation(c, d, None).value)
  {
  }

  lemma StepInv(s: State, e: Event)
    requires Inv(s)
    ensures Inv(After(s, e))
  {
  }

  lemma {:induction false} RunInv(states: seq<State>, events: seq<Event>, i: nat)
    requires Run(states, events) && i < |states|
    ensures Inv(states[i])
  {
    if i == 0 {
      var c, d :| Activation(c, d, None) == Some(states[0]);
      FirstActivationInv(c, d);
    } else {
      RunInv(states, events, i - 1);
      StepInv(states[i - 1], events[i - 1]);
    }
  }

  /** Nothing that protects against rollback ever moves backwards. */
  ghost predicate NotBefore(s: State, t: State) {
    && s.high <= t.high && s.highEpoch <= t.highEpoch && s.generation <= t.generation
    && s.appId == t.appId && s.keyId == t.keyId
    && (s.generation == t.generation ==> s == t)
  }

  lemma StepNotBefore(s: State, e: Event)
    requires Inv(s)
    ensures NotBefore(s, After(s, e))
  {
  }

  lemma {:induction false} HighWaterNeverFalls(states: seq<State>, events: seq<Event>, i: nat, j: nat)
    requires Run(states, events) && i <= j < |states|
    ensures NotBefore(states[i], states[j])
  {
    hide After, Inv;
    if i < j {
      HighWaterNeverFalls(states, events, i, j - 1);
      RunInv(states, events, j - 1);
      StepNotBefore(states[j - 1], events[j - 1]);
    }
  }

  ghost predicate Mentions(s: State, counter: u64, digest: Digest) {
    || (counter == s.current && digest == s.currentDigest)
    || (counter == s.previous && digest == s.previousDigest)
    || (counter == s.high && digest == s.highDigest)
  }

  /** `counter` is not above the high-water mark, and can only stand for `digest`. */
  ghost predicate Bound(s: State, counter: u64, digest: Digest) {
    counter <= s.high && forall d :: Mentions(s, counter, d) ==> d == digest
  }

  lemma MentionsIsUnique(s: State, counter: u64, digest: Digest)
    requires Inv(s) && counter != 0 && Mentions(s, counter, digest)
    ensures Bound(s, counter, digest)
  {
  }

  lemma BoundStep(s: State, e: Event, counter: u64, digest: Digest)
    requires Inv(s) && counter != 0 && Bound(s, counter, digest)
    ensures Bound(After(s, e), counter, digest)
  {
    var t := After(s, e);
    forall d | Mentions(t, counter, d)
      ensures Mentions(s, counter, d)
    {
    }
  }

  lemma {:induction false} BoundForever(
    states: seq<State>, events: seq<Event>, i: nat, j: nat, counter: u64, digest: Digest)
    requires Run(states, events) && i <= j < |states|
    requires counter != 0 && Mentions(states[i], counter, digest)
    ensures Bound(states[j], counter, digest)
  {
    hide After, Inv, Bound, Mentions;
    if i < j {
      BoundForever(states, events, i, j - 1, counter, digest);
      RunInv(states, events, j - 1);
      BoundStep(states[j - 1], events[j - 1], counter, digest);
    } else {
      RunInv(states, events, i);
      MentionsIsUnique(states[i], counter, digest);
    }
  }

  /** One release counter names one package digest in the whole run. */
  lemma OneDigestPerCounter(
    states: seq<State>, events: seq<Event>, i: nat, j: nat, counter: u64, d: Digest, e: Digest)
    requires Run(states, events) && i < |states| && j < |states| && counter != 0
    requires Mentions(states[i], counter, d) && Mentions(states[j], counter, e)
    ensures d == e
  {
    if i <= j {
      BoundForever(states, events, i, j, counter, d);
    } else {
      BoundForever(states, events, j, i, counter, e);
    }
  }

  /** Release `q` is left behind: not above the high-water mark, and not installed. */
  ghost predicate Retired(s: State, q: u64) {
    q <= s.high && q != s.current && q != s.previous
  }

  lemma StepRetired(s: State, e: Event, q: u64)
    requires Inv(s) && q != 0 && Retired(s, q)
    ensures Retired(After(s, e), q)
  {
  }

  /** A release once quarantined is never current or previous again. */
  lemma {:induction false} QuarantineIsForever(states: seq<State>, events: seq<Event>, i: nat, j: nat)
    requires Run(states, events) && i <= j < |states| && states[i].quarantined != 0
    ensures Retired(states[j], states[i].quarantined)
  {
    if i < j {
      QuarantineIsForever(states, events, i, j - 1);
      RunInv(states, events, j - 1);
      StepRetired(states[j - 1], events[j - 1], states[i].quarantined);
    } else {
      RunInv(states, events, i);
    }
  }

  /** The state after a sequence of events. */
  function AfterAll(s: State, events: seq<Event>): State {
    if events == [] then s else After(AfterAll(s, events[..|events| - 1]), events[|events| - 1])
  }

  /** Some events lead from one state to the other. */
  ghost predicate Leads(s: State, t: State) { exists events :: AfterAll(s, events) == t }

  lemma LeadsStep(s: State, t: State, e: Event)
    requires Leads(s, t)
    ensures Leads(s, After(t, e))
  {
    hide After;
    var events :| AfterAll(s, events) == t;
    assert (events + [e])[..|events|] == events;
    assert AfterAll(s, events + [e]) == After(t, e);
  }

  lemma LeadsToItself(s: State)
    ensures Leads(s, s)
  {
    assert AfterAll(s, []) == s;
  }

  lemma {:induction false} AfterAllInv(s: State, events: seq<Event>)
    requires Inv(s)
    ensures Inv(AfterAll(s, events)) && NotBefore(s, AfterAll(s, events))
  {
    hide After, Inv;
    if events != [] {
      AfterAllInv(s, events[..|events| - 1]);
      StepInv(AfterAll(s, events[..|events| - 1]), events[|events| - 1]);
      StepNotBefore(AfterAll(s, events[..|events| - 1]), events[|events| - 1]);
    }
  }

  /** What every event keeps is kept from any state to any it leads to. */
  lemma LeadsProtects(s: State, t: State)
    requires Inv(s) && Leads(s, t)
    ensures Inv(t) && NotBefore(s, t)
  {
    hide Inv, NotBefore;
    var events :| AfterAll(s, events) == t;
    AfterAllInv(s, events);
  }

  lemma {:induction false} AfterAllRetired(s: State, events: seq<Event>, q: u64)
    requires Inv(s) && q != 0 && Retired(s, q)
    ensures Retired(AfterAll(s, events), q)
  {
    hide After, Inv, Retired;
    if events != [] {
      AfterAllInv(s, events[..|events| - 1]);
      AfterAllRetired(s, events[..|events| - 1], q);
      StepRetired(AfterAll(s, events[..|events| - 1]), events[|events| - 1], q);
    }
  }

  lemma QuarantinedIsRetired(s: State)
    requires Inv(s) && s.quarantined != 0
    ensures Retired(s, s.quarantined)
  {
  }

  lemma LeadsRetires(s: State, t: State)
    requires Inv(s) && Leads(s, t) && s.quarantined != 0
    ensures Retired(t, s.quarantined)
  {
    QuarantinedIsRetired(s);
    hide Inv, Retired;
    var events :| AfterAll(s, events) == t;
    AfterAllRetired(s, events, s.quarantined);
  }

  lemma {:induction false} AfterAllBound(s: State, events: seq<Event>, counter: u64, digest: Digest)
    requires Inv(s) && counter != 0 && Bound(s, counter, digest)
    ensures Bound(AfterAll(s, events), counter, digest)
  {
    hide After, Inv, Bound;
    if events != [] {
      AfterAllInv(s, events[..|events| - 1]);
      AfterAllBound(s, events[..|events| - 1], counter, digest);
      BoundStep(AfterAll(s, events[..|events| - 1]), events[|events| - 1], counter, digest);
    }
  }

  lemma LeadsBinds(s: State, t: State, counter: u64, d: Digest, e: Digest)
    requires Inv(s) && Leads(s, t) && counter != 0 && Mentions(s, counter, d) && Mentions(t, counter, e)
    ensures d == e
  {
    MentionsIsUnique(s, counter, d);
    hide Inv;
    var events :| AfterAll(s, events) == t;
    AfterAllBound(s, events, counter, d);
  }

  /** All that protects an application from one state on: nothing moves backwards, what is quarantined
      stays out, and a counter keeps its digest. */
  ghost predicate Protects(s: State, t: State) {
    && Inv(s) && Inv(t) && NotBefore(s, t)
    && (s.quarantined != 0 ==> Retired(t, s.quarantined))
    && forall counter: u64, d, e | counter != 0 && Mentions(s, counter, d) && Mentions(t, counter, e) :: d == e
  }

  /** Wherever events lead, protection holds. */
  lemma LeadsMeansProtects(s: State, t: State)
    requires Inv(s) && Leads(s, t)
    ensures Protects(s, t)
  {
    LeadsProtects(s, t);
    if s.quarantined != 0 {
      LeadsRetires(s, t);
    }
    hide Inv, NotBefore, Retired, Mentions, Leads;
    forall counter: u64, d, e | counter != 0 && Mentions(s, counter, d) && Mentions(t, counter, e)
      ensures d == e
    {
      LeadsBinds(s, t, counter, d, e);
    }
  }

  /** What activating a release for the first time makes of it. */
  lemma FirstActivationMeans(c: Verification, d: Digest)
    requires Activation(c, d, None).Some?
    ensures
      var t, m := Activation(c, d, None).value, c.manifest;
      && t.appId == m.appId && t.keyId == m.keyId && t.generation == 1
      && t.current == t.high == m.releaseCounter && t.currentDigest == t.highDigest == d
      && t.previous == 0 && (forall i :: 0 <= i < 64 ==> t.previousDigest[i] == 0)
      && t.quarantined == 0 && t.failures == 0 && t.highEpoch == m.securityEpoch
  {
  }

  /** What an upgrade means, in every reachable state: the release that was current becomes the previous one, with
      its digest; the new one is current and the highest; the quarantine stays, the epoch does not fall, and the
      failures are forgotten. Activating what is current already changes nothing. */
  lemma UpgradeMeans(s: State, c: Verification, d: Digest)
    requires Inv(s) && Activation(c, d, Some(s)).Some?
    ensures
      var t, m := Activation(c, d, Some(s)).value, c.manifest;
      if m.releaseCounter == s.current then t == s && d == s.currentDigest
      else
        && t.appId == s.appId && t.keyId == s.keyId && t.generation == s.generation + 1
        && t.current == t.high == m.releaseCounter > s.high && t.currentDigest == t.highDigest == d
        && t.previous == s.current && t.previousDigest == s.currentDigest
        && t.quarantined == s.quarantined && t.failures == 0
        && t.highEpoch == m.securityEpoch >= s.highEpoch
  {
  }

  /** What a rollback means: the previous release is current again, with its digest, the one that failed is in
      quarantine, and nothing is left to roll back to. Failures are counted up to three when they are recorded. */
  lemma RollbackMeans(s: State, recordFailure: bool)
    requires Rollback(s, recordFailure).Some?
    ensures
      var t := Rollback(s, recordFailure).value;
      && t.appId == s.appId && t.keyId == s.keyId && t.generation == s.generation + 1
      && t.current == s.previous && t.currentDigest == s.previousDigest
      && t.previous == 0 && (forall i :: 0 <= i < 64 ==> t.previousDigest[i] == 0)
      && t.high == s.high && t.highDigest == s.highDigest && t.highEpoch == s.highEpoch
      && t.quarantined == s.current
      && t.failures == (if !recordFailure then 0 else if s.failures >= 2 then 3 else s.failures + 1)
  {
  }

  /** A rollback undoes an upgrade: it brings back the release that was current, with its digest, and keeps the new
      one out. It is refused only when no generation is left. */
  lemma RollbackUndoesUpgrade(s: State, c: Verification, d: Digest, recordFailure: bool)
    requires Inv(s) && Activation(c, d, Some(s)).Some? && c.manifest.releaseCounter != s.current
    ensures
      var t := Activation(c, d, Some(s)).value;
      && (Rollback(t, recordFailure).Some? <==> t.generation < 0xffff_ffff_ffff_ffff)
      && (Rollback(t, recordFailure).Some? ==>
            var u := Rollback(t, recordFailure).value;
            && u.current == s.current && u.currentDigest == s.currentDigest
            && u.quarantined == c.manifest.releaseCounter && u.high == c.manifest.releaseCounter)
  {
    hide Activation, Rollback, Inv, ValidState;
    var t := Activation(c, d, Some(s)).value;
    UpgradeMeans(s, c, d);
    CurrentIsPositive(s);
    StepInv(s, Activate(c, d));
    StepIs(s, c, d);
    RollbackSucceeds(t, recordFailure);
    if Rollback(t, recordFailure).Some? {
      RollbackMeans(t, recordFailure);
    }
  }

  lemma CurrentIsPositive(s: State)
    requires Inv(s)
    ensures s.current > 0
  {
  }

  lemma StepIs(s: State, c: Verification, d: Digest)
    requires Activation(c, d, Some(s)).Some?
    ensures After(s, Activate(c, d)) == Activation(c, d, Some(s)).value
  {
    hide Activation;
  }

  /** In a reachable state a rollback is refused only for want of a previous release or of a
      further generation; it quarantines exactly the release that was current and keeps the
      high-water mark. */
  lemma RollbackSucceeds(s: State, recordFailure: bool)
    requires Inv(s)
    ensures Rollback(s, recordFailure).Some? <==> s.previous != 0 && s.generation != U64_MAX
    ensures Rollback(s, recordFailure).Some? ==>
      var t := Rollback(s, recordFailure).value;
      && t.quarantined == s.current == s.high == t.high && t.highDigest == s.highDigest
      && t.current == s.previous && t.currentDigest == s.previousDigest && t.previous == 0
      && t.generation == s.generation + 1
  {
  }

  /** From a merely valid state a rollback succeeds if and only if there is a previous release and a
      further generation, and a previous release that is the highest one carries its digest. */
  lemma RollbackExactly(s: State, recordFailure: bool)
    requires ValidState(s)
    ensures Rollback(s, recordFailure).Some? <==>
      && s.previous != 0 && s.generation != U64_MAX
      && (s.previous == s.high ==> s.previousDigest == s.highDigest)
  {
    ZerosAreZero();
  }

  lemma ZerosAreZero()
    ensures Zero(Zeros(64))
  {
  }

  /** `ValidState` alone does not suffice: this state passes it, though the current release is
      below the high-water mark without a quarantine, and a rollback from it is refused. */
  lemma ValidStateIsTooWeak(one: Digest)
    requires !Zero(one)
    ensures exists s ::
      (ValidState(s) && !Inv(s) && s.previous != 0 && s.generation != U64_MAX && Rollback(s, true).None?)
  {
    var appId: seq<byte> := ['a' as int, '.' as int, 'b' as int];
    var keyId: seq<byte> := seq(32, _ => '0' as int);
    assert appId[1] == Text.DOT;
    assert Text.AppId(appId) && Text.LowerHex(keyId, 32);
    // The previous release equals the high-water mark but carries another digest.
    var two := one[0 := if one[0] == 1 then 2 else 1];
    assert two != one && two[0] != 0;
    assert !Zero(two);
    var s := State(appId, keyId, 1, 1, 2, 2, 0, 0, 0, one, two, one);
    assert ValidState(s) && Rollback(s, true).None?;
  }
}
