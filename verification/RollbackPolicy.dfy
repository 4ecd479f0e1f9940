/** The install policy: version comparison, the decision, and the high-water mark it protects. */
module RollbackPolicy {
  import opened Bytes
  import opened Text
  import opened Package
  import opened ReleaseState
  import opened ReleaseLifecycle

  /** A component of a version: decimal digits whose value fits 32 bits. */
  ghost predicate Component(s: seq<byte>, n: nat) {
    s != [] && (forall i :: 0 <= i < |s| ==> Digit(s[i])) && n == DecimalValue(s) && n < 0x1_0000_0000
  }

  /** `value` is three components joined by two dots. */
  ghost predicate IsVersion(value: seq<byte>, v: seq<nat>) {
    |v| == 3 && exists i, j :: 0 <= i < j < |value| && IsVersionAt(value, v, i, j)
  }

  ghost predicate IsVersionAt(value: seq<byte>, v: seq<nat>, i: nat, j: nat)
    requires |v| == 3 && i < j < |value|
  {
    && value[i] == DOT && value[j] == DOT
    && Component(value[..i], v[0]) && Component(value[i + 1..j], v[1]) && Component(value[j + 1..], v[2])
  }

  lemma {:induction false} ValueGrows(s: seq<byte>, k: nat)
    requires k <= |s|
    ensures DecimalValue(s[..k]) <= DecimalValue(s)
  {
    if k < |s| {
      ValueGrows(s[..|s| - 1], k);
      assert s[..|s| - 1][..k] == s[..k];
    } else {
      assert s[..k] == s;
    }
  }

  method ParseComponent(component: seq<byte>) returns (number: Option<nat>)
    ensures number.Some? ==> Component(component, number.value)
    ensures number.None? ==> forall n :: !Component(component, n)
  {
    if component == [] {
      return None;
    }
    var value := 0;
    for index := 0 to |component|
      invariant forall i :: 0 <= i < index ==> Digit(component[i])
      invariant value == DecimalValue(component[..index]) && value < 0x1_0000_0000
    {
      var character := component[index];
      if !Digit(character) {
        return None;
      }
      var digit := character - '0' as int;
      assert component[..index + 1][..index] == component[..index];
      if value > (0xffff_ffff - digit) / 10 {
        ValueGrows(component, index + 1);
        return None;
      }
      value := value * 10 + digit;
    }
    assert component[..|component|] == component;
    number := Some(value);
  }

  /** Part `part` of the version whose dots are at `i` and `j` starts here. */
  ghost function PartStart(part: nat, i: nat, j: nat): nat {
    if part == 0 then 0 else if part == 1 then i + 1 else j + 1
  }

  /** Searching from the start of a part finds its end, and between the two its component. */
  lemma PartFound(value: seq<byte>, v: seq<nat>, i: nat, j: nat, part: nat, end: nat)
    requires |v| == 3 && part < 3 && i < j < |value| && IsVersionAt(value, v, i, j)
    requires First(value, DOT, PartStart(part, i, j), end)
    ensures end == (if part == 0 then i else if part == 1 then j else |value|)
    ensures Component(value[PartStart(part, i, j)..end], v[part])
  {
    assert forall k :: 0 <= k < i ==> value[k] == value[..i][k];
    assert forall k :: i < k < j ==> value[k] == value[i + 1..j][k - i - 1];
    assert forall k :: j < k < |value| ==> value[k] == value[j + 1..][k - j - 1];
    assert value[0..i] == value[..i] && value[j + 1..|value|] == value[j + 1..];
  }

  /** The parts found so far, ending at `ends`, and where the next one starts. */
  ghost predicate Parsed(value: seq<byte>, parts: seq<nat>, ends: seq<nat>, start: nat) {
    && |parts| == |ends| <= 3 && start <= |value|
    && (|ends| == 0 ==> start == 0)
    && (|ends| >= 1 ==> ends[0] < |value| && value[ends[0]] == DOT && Component(value[..ends[0]], parts[0]))
    && (|ends| == 1 ==> start == ends[0] + 1)
    && (|ends| >= 2 ==> ends[0] < ends[1] < |value| && value[ends[1]] == DOT
                        && Component(value[ends[0] + 1..ends[1]], parts[1]))
    && (|ends| == 2 ==> start == ends[1] + 1)
    && (|ends| == 3 ==> Component(value[ends[1] + 1..], parts[2]))
  }

  /** Every way of reading `value` as a version has the dots found so far. */
  ghost predicate Forced(value: seq<byte>, ends: seq<nat>) {
    forall v: seq<nat>, i: nat, j: nat | |v| == 3 && i < j < |value| && IsVersionAt(value, v, i, j) ::
      (|ends| >= 1 ==> i == ends[0]) && (|ends| >= 2 ==> j == ends[1])
  }

  lemma NextPart(value: seq<byte>, parts: seq<nat>, ends: seq<nat>, start: nat, end: nat)
    requires Parsed(value, parts, ends, start) && Forced(value, ends) && |ends| < 3
    requires First(value, DOT, start, end)
    ensures forall v, i, j | |v| == 3 && 0 <= i < j < |value| && IsVersionAt(value, v, i, j) ::
      end == (if |ends| == 0 then i else if |ends| == 1 then j else |value|)
      && Component(value[start..end], v[|ends|])
  {
    forall v, i, j | |v| == 3 && 0 <= i < j < |value| && IsVersionAt(value, v, i, j)
      ensures end == (if |ends| == 0 then i else if |ends| == 1 then j else |value|)
        && Component(value[start..end], v[|ends|])
    {
      PartFound(value, v, i, j, |ends|, end);
    }
  }

  /** Accepts exactly the dotted triples of 32-bit decimals, and returns their values. */
  method ParseVersion(value: seq<byte>) returns (output: Option<seq<nat>>)
    ensures output.Some? ==> IsVersion(value, output.value)
    ensures output.None? ==> forall v :: !IsVersion(value, v)
  {
    var parts: seq<nat> := [];
    var start: nat := 0;
    ghost var ends: seq<nat> := [];
    for part := 0 to 3
      invariant |ends| == part && Parsed(value, parts, ends, start) && Forced(value, ends)
    {
      var end := Find(value, DOT, start);
      NextPart(value, parts, ends, start, end);
      if (part < 2 && end == |value|) || (part == 2 && end != |value|) {
        return None;
      }
      var component := value[start..end];
      var number := ParseComponent(component);
      if number.None? {
        return None;
      }
      assert part == 0 ==> component == value[..end];
      assert part == 2 ==> component == value[start..];
      parts := parts + [number.value];
      ends := ends + [end];
      start := if end == |value| then |value| else end + 1;
    }
    assert IsVersionAt(value, parts, ends[0], ends[1]);
    output := Some(parts);
  }

  lemma OwnDots(value: seq<byte>, v: seq<nat>, i: nat, j: nat)
    requires |v| == 3 && i < j < |value| && IsVersionAt(value, v, i, j)
    ensures First(value, DOT, 0, i) && First(value, DOT, i + 1, j)
  {
    assert forall n :: 0 <= n < i ==> value[n] == value[..i][n];
    assert forall n :: i < n < j ==> value[n] == value[i + 1..j][n - i - 1];
  }

  lemma VersionUnique(value: seq<byte>, v: seq<nat>, w: seq<nat>)
    requires IsVersion(value, v) && IsVersion(value, w)
    ensures v == w
  {
    var i, j :| 0 <= i < j < |value| && IsVersionAt(value, v, i, j);
    var k, l :| 0 <= k < l < |value| && IsVersionAt(value, w, k, l);
    OwnDots(value, v, i, j);
    PartFound(value, w, k, l, 0, i);
    PartFound(value, w, k, l, 1, j);
    assert i == k && j == l;
    assert v == [v[0], v[1], v[2]] && w == [w[0], w[1], w[2]];
  }

  /** A decimal numeral of at most 4294967295; leading zeros do no harm. */
  predicate Numeral(s: seq<byte>, n: nat) {
    |s| >= 1 && (forall i :: 0 <= i < |s| ==> 48 <= s[i] <= 57) && n == DecimalValue(s) && n <= 4294967295
  }

  lemma ComponentIsNumeral(s: seq<byte>, n: nat)
    ensures Component(s, n) <==> Numeral(s, n)
    ensures Component(s, n) ==> 46 !in s
  {
    hide DecimalValue;
  }

  function Triple(x: seq<byte>, y: seq<byte>, z: seq<byte>): seq<byte> { x + [46] + y + [46] + z }

  lemma TripleParts(x: seq<byte>, y: seq<byte>, z: seq<byte>, v: seq<nat>)
    requires |v| == 3
    ensures
      var value, i, j := Triple(x, y, z), |x|, |x| + 1 + |y|;
      && 0 <= i < j < |value|
      && (IsVersionAt(value, v, i, j) <==> Component(x, v[0]) && Component(y, v[1]) && Component(z, v[2]))
  {
    hide Component;
    var value, i, j := Triple(x, y, z), |x|, |x| + 1 + |y|;
    assert value[..i] == x && value[i + 1..j] == y && value[j + 1..] == z;
  }

  lemma OnlyDots(x: seq<byte>, y: seq<byte>, z: seq<byte>, k: nat)
    requires 46 !in x && 46 !in y && 46 !in z && k < |Triple(x, y, z)|
    ensures Triple(x, y, z)[k] == 46 <==> k == |x| || k == |x| + 1 + |y|
  {
    var value, i, j := Triple(x, y, z), |x|, |x| + 1 + |y|;
    if k < i {
      assert value[k] == x[k];
    } else if i < k < j {
      assert value[k] == y[k - i - 1];
    } else if j < k {
      assert value[k] == z[k - j - 1];
    }
  }

  /** Three strings joined by dots are a version exactly when each is a numeral. */
  lemma TripleIsVersion(x: seq<byte>, y: seq<byte>, z: seq<byte>, v: seq<nat>)
    requires |v| == 3 && 46 !in x && 46 !in y && 46 !in z
    ensures IsVersion(Triple(x, y, z), v) <==> Numeral(x, v[0]) && Numeral(y, v[1]) && Numeral(z, v[2])
  {
    hide Component, Numeral, Triple;
    ComponentIsNumeral(x, v[0]);
    ComponentIsNumeral(y, v[1]);
    ComponentIsNumeral(z, v[2]);
    TripleParts(x, y, z, v);
    if IsVersion(Triple(x, y, z), v) {
      var k, l :| 0 <= k < l < |Triple(x, y, z)| && IsVersionAt(Triple(x, y, z), v, k, l);
      OnlyDots(x, y, z, k);
      OnlyDots(x, y, z, l);
    }
  }

  /** And every version is three such strings. */
  lemma VersionIsTriple(value: seq<byte>, v: seq<nat>) returns (x: seq<byte>, y: seq<byte>, z: seq<byte>)
    requires IsVersion(value, v)
    ensures value == Triple(x, y, z) && 46 !in x && 46 !in y && 46 !in z
  {
    hide Component;
    var i, j :| 0 <= i < j < |value| && IsVersionAt(value, v, i, j);
    x, y, z := value[..i], value[i + 1..j], value[j + 1..];
    ComponentIsNumeral(x, v[0]);
    ComponentIsNumeral(y, v[1]);
    ComponentIsNumeral(z, v[2]);
  }

  /** Triples compare like dictionary words. */
  predicate AtLeast(a: seq<nat>, b: seq<nat>)
    requires |a| == |b| == 3
  {
    a[0] > b[0] || (a[0] == b[0] && (a[1] > b[1] || (a[1] == b[1] && a[2] >= b[2])))
  }

  ghost predicate VersionAtLeast(actual: seq<byte>, minimum: seq<byte>) {
    exists a, m :: IsVersion(actual, a) && IsVersion(minimum, m) && AtLeast(a, m)
  }

  method CheckVersionAtLeast(actual: seq<byte>, minimum: seq<byte>) returns (ok: bool)
    ensures ok == VersionAtLeast(actual, minimum)
  {
    var a := ParseVersion(actual);
    var m := ParseVersion(minimum);
    ok := a.Some? && m.Some? && AtLeast(a.value, m.value);
    if a.Some? && m.Some? {
      VersionAtLeastMeans(actual, minimum, a.value, m.value);
    }
  }

  /** The comparison is that of the parsed triples, whichever way they are found. */
  lemma VersionAtLeastMeans(u: seq<byte>, v: seq<byte>, a: seq<nat>, b: seq<nat>)
    requires IsVersion(u, a) && IsVersion(v, b)
    ensures VersionAtLeast(u, v) <==> AtLeast(a, b)
  {
    if VersionAtLeast(u, v) {
      var x, y :| IsVersion(u, x) && IsVersion(v, y) && AtLeast(x, y);
      VersionUnique(u, x, a);
      VersionUnique(v, y, b);
    }
  }

  datatype Context = Context(
    platform: seq<byte>, sdkAbi: seq<byte>, profile: seq<byte>, machine: seq<byte>,
    allowedCapabilities: seq<seq<byte>>)

  datatype HighWater = HighWater(
    appId: seq<byte>, keyId: seq<byte>, counter: u64, epoch: u32, digest: Digest)

  datatype Decision =
    | Allowed | NotAuthenticated | InvalidInput | IncompatibleSdk | PlatformTooOld
    | UnsupportedProfile | UnsupportedMachine | CapabilityDenied | AppIdMismatch
    | SignerChanged | EpochRollback | CounterRollback | CounterCollision

  function HighWaterOf(s: State): HighWater {
    HighWater(s.appId, s.keyId, s.high, s.highEpoch, s.highDigest)
  }

  /** The device-side part: authenticity, compatibility and capabilities. */
  ghost function Compatibility(c: Verification, context: Context): Decision {
    var m := c.manifest;
    if !Authenticated(c) then NotAuthenticated
    else if context.platform == [] || context.sdkAbi == [] || m.appId == [] || m.releaseCounter == 0 then InvalidInput
    else if m.sdkAbi != context.sdkAbi then IncompatibleSdk
    else if !VersionAtLeast(context.platform, m.minimumPlatform) then PlatformTooOld
    else if context.profile != [] && context.profile !in m.profiles then UnsupportedProfile
    else if context.machine != [] && context.machine !in m.machines then UnsupportedMachine
    else if exists k :: k in m.capabilities && k !in context.allowedCapabilities then CapabilityDenied
    else Allowed
  }

  /** The anti-rollback part, against what is installed. */
  function AgainstInstalled(m: Manifest, digest: Digest, mark: HighWater): Decision {
    if mark.appId != m.appId then AppIdMismatch
    else if mark.keyId != m.keyId then SignerChanged
    else if m.securityEpoch < mark.epoch then EpochRollback
    else if m.releaseCounter < mark.counter then CounterRollback
    else if m.releaseCounter == mark.counter && digest != mark.digest then CounterCollision
    else Allowed
  }

  ghost function Evaluate(
    c: Verification, digest: Digest, context: Context, mark: Option<HighWater>): Decision
  {
    var compatible := Compatibility(c, context);
    if compatible != Allowed then compatible
    else if mark.None? then Allowed
    else AgainstInstalled(c.manifest, digest, mark.value)
  }

  method EvaluateInstallPolicy(
    c: Verification, digest: Digest, context: Context, mark: Option<HighWater>) returns (r: Decision)
    ensures r == Evaluate(c, digest, context, mark)
  {
    var m := c.manifest;
    if !Authenticated(c) {
      return NotAuthenticated;
    }
    if context.platform == [] || context.sdkAbi == [] || m.appId == [] || m.releaseCounter == 0 {
      return InvalidInput;
    }
    if m.sdkAbi != context.sdkAbi {
      return IncompatibleSdk;
    }
    var recent := CheckVersionAtLeast(context.platform, m.minimumPlatform);
    if !recent {
      return PlatformTooOld;
    }
    if context.profile != [] && context.profile !in m.profiles {
      return UnsupportedProfile;
    }
    if context.machine != [] && context.machine !in m.machines {
      return UnsupportedMachine;
    }
    for index := 0 to |m.capabilities|
      invariant forall k :: 0 <= k < index ==> m.capabilities[k] in context.allowedCapabilities
    {
      if m.capabilities[index] !in context.allowedCapabilities {
        return CapabilityDenied;
      }
    }
    if mark.None? {
      return Allowed;
    }
    r := AgainstInstalled(m, digest, mark.value);
  }

  function Advance(c: Verification, digest: Digest, mark: Option<HighWater>): HighWater {
    var m := c.manifest;
    if mark.Some? && (m.appId != mark.value.appId || m.keyId != mark.value.keyId
                      || m.releaseCounter <= mark.value.counter || m.securityEpoch < mark.value.epoch)
    then mark.value
    else HighWater(m.appId, m.keyId, m.releaseCounter, m.securityEpoch, digest)
  }

  /** What a decision other than `Allowed` says of the release, each by itself. */
  ghost predicate Violates(
    r: Decision, c: Verification, digest: Digest, context: Context, mark: Option<HighWater>)
  {
    var m := c.manifest;
    match r
    case Allowed => false
    case NotAuthenticated => !c.verified || c.development || !c.signatureVerified
    case InvalidInput => |context.platform| == 0 || |context.sdkAbi| == 0 || |m.appId| == 0 || m.releaseCounter < 1
    case IncompatibleSdk => m.sdkAbi != context.sdkAbi
    case PlatformTooOld =>
      !exists a, b :: IsVersion(context.platform, a) && IsVersion(m.minimumPlatform, b)
        && (b[0] < a[0] || (b[0] == a[0] && b[1] < a[1]) || (b[0] == a[0] && b[1] == a[1] && b[2] <= a[2]))
    case UnsupportedProfile => |context.profile| > 0 && !(context.profile in m.profiles)
    case UnsupportedMachine => |context.machine| > 0 && !(context.machine in m.machines)
    case CapabilityDenied => !forall k :: k in m.capabilities ==> k in context.allowedCapabilities
    case AppIdMismatch => mark.Some? && mark.value.appId != m.appId
    case SignerChanged => mark.Some? && mark.value.keyId != m.keyId
    case EpochRollback => mark.Some? && mark.value.epoch > m.securityEpoch
    case CounterRollback => mark.Some? && mark.value.counter > m.releaseCounter
    case CounterCollision => mark.Some? && mark.value.counter == m.releaseCounter && mark.value.digest != digest
  }

  /** The order in which violations are reported. */
  function Rank(r: Decision): nat {
    match r
    case NotAuthenticated => 1
    case InvalidInput => 2
    case IncompatibleSdk => 3
    case PlatformTooOld => 4
    case UnsupportedProfile => 5
    case UnsupportedMachine => 6
    case CapabilityDenied => 7
    case AppIdMismatch => 8
    case SignerChanged => 9
    case EpochRollback => 10
    case CounterRollback => 11
    case CounterCollision => 12
    case Allowed => 13
  }

  /** The decision is the first violation there is. In particular a release is allowed if and only if there is none:
      it is signed by an official key, for this SDK, platform, profile and machine, asks for nothing that is not
      granted, and does not fall behind what is installed. */
  lemma DecisionIsFirstViolation(c: Verification, digest: Digest, context: Context, mark: Option<HighWater>)
    ensures
      var r := Evaluate(c, digest, context, mark);
      && (r == Allowed || Violates(r, c, digest, context, mark))
      && forall q: Decision :: Rank(q) < Rank(r) ==> !Violates(q, c, digest, context, mark)
    ensures Evaluate(c, digest, context, mark) == Allowed <==>
      forall q: Decision :: !Violates(q, c, digest, context, mark)
  {
    PlatformIsRecent(c, digest, context, mark);
    hide IsVersion, VersionAtLeast;
  }

  lemma PlatformIsRecent(c: Verification, digest: Digest, context: Context, mark: Option<HighWater>)
    ensures Violates(PlatformTooOld, c, digest, context, mark) <==>
      !VersionAtLeast(context.platform, c.manifest.minimumPlatform)
  {
    hide IsVersionAt;
  }

  /** In every reachable state, the transition accepts exactly what the policy allows, except a
      quarantined release and, for a release not already active, an exhausted generation; and the
      high-water mark of the result is the one the policy computes. */
  lemma PolicyAndTransitionAgree(c: Verification, digest: Digest, s: State)
    requires Inv(s) && Authenticated(c) && !Zero(digest)
    ensures
      var allowed := AgainstInstalled(c.manifest, digest, HighWaterOf(s)) == Allowed;
      var m := c.manifest;
      Activation(c, digest, Some(s)).Some? <==>
        && allowed && m.releaseCounter != s.quarantined
        && (s.generation != U64_MAX || m.releaseCounter == s.current)
    ensures Activation(c, digest, Some(s)).Some? ==>
      HighWaterOf(Activation(c, digest, Some(s)).value) == Advance(c, digest, Some(HighWaterOf(s)))
  {
  }

  /** The same for the full decision, with and without an installed release. */
  lemma AllowedReleaseActivates(c: Verification, digest: Digest, context: Context, current: Option<State>)
    requires current.Some? ==> Inv(current.value)
    requires Authenticated(c) ==> WellFormed(c.manifest)
    requires !Zero(digest)
    requires
      var mark := if current.Some? then Some(HighWaterOf(current.value)) else None;
      Evaluate(c, digest, context, mark) == Allowed
    ensures
      var blocked := current.Some? &&
        (c.manifest.releaseCounter == current.value.quarantined
         || (current.value.generation == U64_MAX && c.manifest.releaseCounter != current.value.current));
      Activation(c, digest, current).Some? <==> !blocked
    ensures Activation(c, digest, current).Some? ==>
      HighWaterOf(Activation(c, digest, current).value)
        == Advance(c, digest, if current.Some? then Some(HighWaterOf(current.value)) else None)
  {
    if current.Some? {
      PolicyAndTransitionAgree(c, digest, current.value);
    }
  }

  /** A release put in quarantine by a rollback still passes the policy: only the transition
      stops it from coming back. */
  lemma PolicyAloneAllowsQuarantined(c: Verification, s: State, recordFailure: bool)
    requires Inv(s) && Rollback(s, recordFailure).Some? && Authenticated(c)
    requires c.manifest.appId == s.appId && c.manifest.keyId == s.keyId
    requires c.manifest.releaseCounter == s.current && c.manifest.securityEpoch >= s.highEpoch
    ensures
      var t := Rollback(s, recordFailure).value;
      && AgainstInstalled(c.manifest, s.currentDigest, HighWaterOf(t)) == Allowed
      && Activation(c, s.currentDigest, Some(t)).None?
  {
  }
}
