/** The two-slot store of the release state. What a running system sees and what power loss may leave of
    it are kept apart, and power may be lost at every step. */
module StateStore {
  import opened Bytes
  import opened FileWrite
  import opened Text
  import opened ReleaseState

  datatype Slot = Missing | File(bytes: seq<byte>)

  /** The application's directory in the store. */
  datatype Directory = Absent | Present(a: Slot, b: Slot)

  /** The directory as a running system sees it, and what power loss may leave of it. `maybe` holds every
      content it has had since it was last synced, the present one included: changes to one directory
      reach the disk in order. `entryUnsynced` says that the directory was created without the ones
      above having been synced since, so that power loss may take it away altogether. */
  datatype Disk = Disk(visible: Directory, maybe: set<Directory>, entryUnsynced: bool)

  function Settled(d: Directory): Disk { Disk(d, {d}, false) }

  /** What power loss may leave. */
  function Outcomes(k: Disk): set<Directory> { if k.entryUnsynced then k.maybe + {Absent} else k.maybe }

  datatype StoreStatus =
    | Written | WrittenDegraded | Loaded | LoadedDegraded | NotFound | Uninitialized
    | InvalidArgument | RootUntrusted | StateInvalid | IoError | RandomUnavailable

  /** What becomes of the sync after a rename: it may fail, or power may be lost before it is done. */
  datatype SyncOutcome = Done | SyncFailed | LostUnsynced

  datatype RenameOutcome =
    | Renamed(sync: SyncOutcome) | RenameFailed | LostBefore
    | LostTorn(torn: seq<byte>)  // a file system without atomic rename leaves these bytes

  /** What the environment does during one slot write. */
  datatype WriteEnv = WriteEnv(
    randomOk: bool, createOk: bool, counts: seq<Count>, fileSynced: bool, rename: RenameOutcome)

  datatype Opening = Opened | Untrusted(created: bool) | LostOpening(created: bool)

  /** What the environment does during one `persist`. */
  datatype PersistEnv = PersistEnv(opening: Opening, first: WriteEnv, second: WriteEnv, parentsSynced: bool)

  datatype SlotWrite = SlotWritten | RandomFailed | IoFailed | PowerLost

  /** Whether the temporary file of a slot is complete and synced. */
  predicate Prepared(bytes: seq<byte>, env: WriteEnv) {
    env.randomOk && env.createOk && Reached(|bytes|, env.counts) == |bytes| && env.fileSynced
  }

  function SlotResult(bytes: seq<byte>, env: WriteEnv): SlotWrite {
    if !env.randomOk then RandomFailed
    else if !Prepared(bytes, env) then IoFailed
    else match env.rename
      case RenameFailed => IoFailed
      case Renamed(Done) => SlotWritten
      case Renamed(SyncFailed) => IoFailed
      case _ => PowerLost
  }

  /** The slot that is written first, and selected as the newest: b for even generations. */
  predicate FirstIsB(generation: nat) { generation % 2 == 0 }

  function SlotAt(d: Directory, isB: bool): Slot
    requires d.Present?
  {
    if isB then d.b else d.a
  }

  function WithSlot(d: Directory, isB: bool, slot: Slot): (r: Directory)
    requires d.Present?
    ensures r.Present?
  {
    if isB then d.(b := slot) else d.(a := slot)
  }

  /** A change that is visible at once, and on the disk some time later. */
  function Put(k: Disk, isB: bool, slot: Slot): (r: Disk)
    requires k.visible.Present?
    ensures r.visible.Present?
  {
    var d := WithSlot(k.visible, isB, slot);
    k.(visible := d, maybe := k.maybe + {d})
  }

  function Synced(k: Disk): Disk { k.(maybe := {k.visible}) }

  function WriteTo(k: Disk, isB: bool, bytes: seq<byte>, env: WriteEnv): (r: Disk)
    requires k.visible.Present?
    ensures r.visible.Present?
  {
    if !Prepared(bytes, env) then k
    else match env.rename
      case Renamed(sync) => var put := Put(k, isB, File(bytes)); if sync == Done then Synced(put) else put
      case LostTorn(torn) => Put(k, isB, File(torn))
      case _ => k
  }

  /** Creating the directory, if it is not there yet. */
  function Created(k: Disk, synced: bool): (r: Disk)
    ensures r.visible.Present?
  {
    if k.visible.Absent? then Disk(Present(Missing, Missing), {Present(Missing, Missing)}, !synced) else k
  }

  /** The store after `persist` and the status returned, `None` when power was lost. */
  function Persisted(k: Disk, s: State, sha: Sha256, env: PersistEnv): (Disk, Option<StoreStatus>) {
    if !AppId(s.appId) then (k, Some(InvalidArgument))
    else match Encode(s, sha)
      case Err(_) => (k, Some(StateInvalid))
      case Ok(bytes) =>
        match env.opening
        case Untrusted(created) => (if created then Created(k, false) else k, Some(RootUntrusted))
        case LostOpening(created) => (if created then Created(k, false) else k, None)
        case Opened => WriteSlots(Created(k, true), FirstIsB(s.generation), bytes, env)
  }

  /** The two slot writes, the slot of the generation's parity first. */
  function WriteSlots(k: Disk, isB: bool, bytes: seq<byte>, env: PersistEnv): (Disk, Option<StoreStatus>)
    requires k.visible.Present?
  {
    var one := WriteTo(k, isB, bytes, env.first);
    match SlotResult(bytes, env.first)
    case RandomFailed => (one, Some(RandomUnavailable))
    case IoFailed => (one, Some(IoError))
    case PowerLost => (one, None)
    case SlotWritten =>
      var two := WriteTo(one, !isB, bytes, env.second);
      var result := SlotResult(bytes, env.second);
      if result == PowerLost then (two, None)
      else if !env.parentsSynced then (two, Some(WrittenDegraded))
      else (two.(entryUnsynced := false), Some(if result == SlotWritten then Written else WrittenDegraded))
  }

  /** The bytes read from a slot; a missing or oversized file, or a failed read, reads as nothing. */
  function ReadSlot(slot: Slot, fault: bool): seq<byte> {
    if fault || slot.Missing? || |slot.bytes| == 0 || |slot.bytes| > MAXIMUM_STATE_SIZE then [] else slot.bytes
  }

  /** What may go wrong in a load: opening the directory, and reading either slot. */
  datatype Faults = Faults(opening: bool, a: bool, b: bool)

  const CLEAR: Faults := Faults(false, false, false)

  /** Loading, when any of these fail. */
  function LoadFaulty(d: Directory, appId: seq<byte>, sha: Sha256, f: Faults): (StoreStatus, Option<State>) {
    if !AppId(appId) then (InvalidArgument, None)
    else if f.opening then (RootUntrusted, None)
    else if d.Absent? then (NotFound, None)
    else if d.a.Missing? && !f.a && d.b.Missing? && !f.b then (Uninitialized, None)
    else
      var selected := Select(ReadSlot(d.a, f.a), ReadSlot(d.b, f.b), sha);
      if selected.result.Err? || selected.result.value.appId != appId then (StateInvalid, None)
      else (if selected.degraded then LoadedDegraded else Loaded, Some(selected.result.value))
  }

  /** Loading, when nothing fails. */
  function Load(d: Directory, appId: seq<byte>, sha: Sha256): (StoreStatus, Option<State>) {
    LoadFaulty(d, appId, sha, CLEAR)
  }

  /** The load returns the state that is there, or none. */
  predicate Sighted(d: Directory, appId: seq<byte>, sha: Sha256, f: Faults) {
    LoadFaulty(d, appId, sha, f).1 in {None, Load(d, appId, sha).1}
  }

  /** The store object: slots replaced in place, one after the other. */
  class Store {
    var disk: Disk

    constructor (k: Disk)
      ensures disk == k
    {
      disk := k;
    }

    method WriteSlot(isB: bool, bytes: seq<byte>, env: WriteEnv) returns (r: SlotWrite)
      requires disk.visible.Present?
      modifies this
      ensures disk == WriteTo(old(disk), isB, bytes, env)
      ensures r == SlotResult(bytes, env)
    {
      if !env.randomOk {
        return RandomFailed;
      }
      if !env.createOk {
        return IoFailed;
      }
      var complete, temporary := MoveAll(bytes, env.counts);
      if !complete || !env.fileSynced {
        return IoFailed;
      }
      match env.rename {
        case RenameFailed => return IoFailed;
        case LostBefore => return PowerLost;
        case LostTorn(torn) =>
          disk := Put(disk, isB, File(torn));
          return PowerLost;
        case Renamed(sync) =>
          disk := Put(disk, isB, File(temporary));
          if sync == SyncFailed {
            return IoFailed;
          }
          if sync == LostUnsynced {
            return PowerLost;
          }
          disk := Synced(disk);
          return SlotWritten;
      }
    }

    method Persist(s: State, sha: Sha256, env: PersistEnv) returns (status: Option<StoreStatus>)
      modifies this
      ensures (disk, status) == Persisted(old(disk), s, sha, env)
    {
      hide Prepared, WriteTo;
      var idOk := CheckAppId(s.appId);
      if !idOk {
        return Some(InvalidArgument);
      }
      var encoded := EncodeReleaseState(s, sha);
      if encoded.Err? {
        return Some(StateInvalid);
      }
      match env.opening {
        case Untrusted(created) =>
          disk := if created then Created(disk, false) else disk;
          return Some(RootUntrusted);
        case LostOpening(created) =>
          disk := if created then Created(disk, false) else disk;
          return None;
        case Opened =>
      }
      disk := Created(disk, true);
      var isB := FirstIsB(s.generation);
      var first := WriteSlot(isB, encoded.value, env.first);
      if first == RandomFailed {
        return Some(RandomUnavailable);
      }
      if first == PowerLost {
        return None;
      }
      if first != SlotWritten {
        return Some(IoError);
      }
      var second := WriteSlot(!isB, encoded.value, env.second);
      if second == PowerLost {
        return None;
      }
      if !env.parentsSynced {
        return Some(WrittenDegraded);
      }
      disk := disk.(entryUnsynced := false);
      status := Some(if second == SlotWritten then Written else WrittenDegraded);
    }
  }

  function DecodeSlot(d: Directory, isB: bool, sha: Sha256): Result<State>
    requires d.Present?
  {
    Decode(ReadSlot(SlotAt(d, isB), false), sha)
  }

  /** `s` is the newest state in the directory: it sits in the slot its generation is written to first,
      and the other slot is unreadable, equal, or older. */
  ghost predicate Holds(d: Directory, s: State, sha: Sha256) {
    && d.Present? && ValidState(s)
    && DecodeSlot(d, FirstIsB(s.generation), sha) == Ok(s)
    && var other := DecodeSlot(d, !FirstIsB(s.generation), sha);
       other.Err? || other.value == s || other.value.generation < s.generation
  }

  /** The newest state is what a load returns; degradation means the other slot is unreadable. */
  lemma LoadReturnsNewest(d: Directory, s: State, sha: Sha256)
    requires Available(sha) && Holds(d, s, sha)
    ensures Load(d, s.appId, sha) ==
      (if DecodeSlot(d, !FirstIsB(s.generation), sha).Err? then LoadedDegraded else Loaded, Some(s))
  {
    hide Decode, Encode, Text.AppId;
    var isB := FirstIsB(s.generation);
    var mine, other := ReadSlot(SlotAt(d, isB), false), ReadSlot(SlotAt(d, !isB), false);
    EncodeInvertsDecode(mine, sha);
    if Decode(other, sha).Ok? {
      EncodeInvertsDecode(other, sha);
    }
    EmptyUndecodable(sha);
  }

  /** What a load returns whatever fails in it. With the newest slot unread it falls back to the other slot: this
      is what a commit that reports degradation leaves open. So it never returns an older state if and only if
      the newest slot is read, or nothing is, or the other slot holds the same state or none. */
  lemma FaultyLoad(d: Directory, s: State, sha: Sha256, f: Faults)
    requires Available(sha) && Holds(d, s, sha)
    ensures
      var isB := FirstIsB(s.generation);
      var other := DecodeSlot(d, !isB, sha);
      var newest, older := if isB then f.b else f.a, if isB then f.a else f.b;
      var elsewhere := if other.Ok? && other.value.appId == s.appId then Some(other.value) else None;
      && LoadFaulty(d, s.appId, sha, f).1 ==
           (if f.opening then None else if !newest then Some(s) else if older then None else elsewhere)
      && (Sighted(d, s.appId, sha, f) <==>
            f.opening || !newest || older || elsewhere.None? || elsewhere == Some(s))
  {
    hide *;
    HoldsIsPresent(d, s, sha);
    LoadReturnsNewest(d, s, sha);
    FaultyRead(d, s, sha, f);
    SightedMeans(d, s.appId, sha, f);
  }

  lemma SightedMeans(d: Directory, appId: seq<byte>, sha: Sha256, f: Faults)
    ensures
      var seen := LoadFaulty(d, appId, sha, f).1;
      Sighted(d, appId, sha, f) <==> seen.None? || seen == Load(d, appId, sha).1
  {
    hide LoadFaulty, Load;
  }

  lemma FaultyRead(d: Directory, s: State, sha: Sha256, f: Faults)
    requires Available(sha) && Holds(d, s, sha)
    ensures
      var isB := FirstIsB(s.generation);
      var other := DecodeSlot(d, !isB, sha);
      var newest, older := if isB then f.b else f.a, if isB then f.a else f.b;
      LoadFaulty(d, s.appId, sha, f).1 ==
        if f.opening then None else if !newest then Some(s) else if older then None
        else if other.Ok? && other.value.appId == s.appId then Some(other.value) else None
  {
    hide Decode, Encode, Text.AppId;
    var isB := FirstIsB(s.generation);
    var mine, other := ReadSlot(SlotAt(d, isB), false), ReadSlot(SlotAt(d, !isB), false);
    EncodeInvertsDecode(mine, sha);
    if Decode(other, sha).Ok? {
      EncodeInvertsDecode(other, sha);
    }
    EmptyUndecodable(sha);
  }

  /** Both slots hold the state, as they do after a commit that reports full success. */
  ghost predicate Redundant(d: Directory, s: State, sha: Sha256) {
    d.Present? && ValidState(s) && DecodeSlot(d, true, sha) == Ok(s) && DecodeSlot(d, false, sha) == Ok(s)
  }

  /** Then no failure in a load brings an older state back, and one slot is enough. */
  lemma RedundantLoads(d: Directory, s: State, sha: Sha256, f: Faults)
    requires Available(sha) && Redundant(d, s, sha)
    ensures Holds(d, s, sha) && Sighted(d, s.appId, sha, f)
    ensures !f.opening && !(f.a && f.b) ==> LoadFaulty(d, s.appId, sha, f).1 == Some(s)
  {
    hide Decode, Encode, Text.AppId, LoadFaulty, Sighted;
    FaultyLoad(d, s, sha, f);
  }

  lemma EmptyUndecodable(sha: Sha256)
    ensures Decode([], sha).Err?
  {
  }

  /** Bytes a torn write may leave behind: anything the decoder rejects. */
  ghost predicate TornOk(env: WriteEnv, sha: Sha256) {
    env.rename.LostTorn? ==> Decode(ReadSlot(File(env.rename.torn), false), sha).Err?
  }

  ghost predicate Atomic(env: WriteEnv) { !env.rename.LostTorn? }

  lemma AtomicIsNotTorn(env: WriteEnv, sha: Sha256)
    requires Atomic(env)
    ensures TornOk(env, sha)
  {
  }

  lemma EncodedSlotDecodes(s: State, sha: Sha256)
    requires ValidState(s) && Available(sha)
    ensures Encode(s, sha).Ok?
    ensures Decode(ReadSlot(File(Encode(s, sha).value), false), sha) == Ok(s)
  {
    DecodeInvertsEncode(s, sha);
    SizeAlwaysFits(s, sha);
  }

  /** Putting the next generation into its slot, whole or torn. */
  lemma PutNext(d: Directory, s: State, t: State, sha: Sha256, bytes: seq<byte>)
    requires Holds(d, s, sha) && ValidState(t) && t.generation == s.generation + 1
    ensures Decode(ReadSlot(File(bytes), false), sha) == Ok(t) ==>
      Holds(WithSlot(d, FirstIsB(t.generation), File(bytes)), t, sha)
    ensures Decode(ReadSlot(File(bytes), false), sha).Err? ==>
      Holds(WithSlot(d, FirstIsB(t.generation), File(bytes)), s, sha)
  {
    hide Decode, ReadSlot;
  }

  /** Putting a state into a slot again, or tearing the slot that is not its own. */
  lemma PutAgain(d: Directory, t: State, isB: bool, sha: Sha256, bytes: seq<byte>)
    requires Holds(d, t, sha)
    ensures Decode(ReadSlot(File(bytes), false), sha) == Ok(t) ==> Holds(WithSlot(d, isB, File(bytes)), t, sha)
    ensures Decode(ReadSlot(File(bytes), false), sha).Err? && isB != FirstIsB(t.generation) ==>
      Holds(WithSlot(d, isB, File(bytes)), t, sha)
  {
    hide Decode, ReadSlot;
  }

  predicate Succeeded(status: Option<StoreStatus>) { status == Some(Written) || status == Some(WrittenDegraded) }

  /** The second slot write keeps what the first one wrote, whatever happens. */
  lemma SecondWrite(k: Disk, t: State, bytes: seq<byte>, env: WriteEnv, sha: Sha256)
    requires Holds(k.visible, t, sha) && k.maybe == {k.visible} && TornOk(env, sha)
    requires Decode(ReadSlot(File(bytes), false), sha) == Ok(t)
    ensures
      var after := WriteTo(k, !FirstIsB(t.generation), bytes, env);
      && Holds(after.visible, t, sha) && after.entryUnsynced == k.entryUnsynced && after.visible in after.maybe
      && (forall d :: d in after.maybe ==> Holds(d, t, sha))
      && (SlotResult(bytes, env) == SlotWritten ==>
            after.maybe == {after.visible} && SlotAt(after.visible, !FirstIsB(t.generation)) == File(bytes))
      && SlotAt(after.visible, FirstIsB(t.generation)) == SlotAt(k.visible, FirstIsB(t.generation))
  {
    hide Holds, Decode, ReadSlot, FirstIsB, Prepared;
    var isB := !FirstIsB(t.generation);
    PutAgain(k.visible, t, isB, sha, bytes);
    if env.rename.LostTorn? {
      PutAgain(k.visible, t, isB, sha, env.rename.torn);
    }
  }

  /** What is visible, and all that power loss may leave, holds the old state or the new one, or is what
      might have been left before; and nothing newer than what is visible. */
  ghost predicate OldOrNew(before: Disk, after: Disk, s: State, t: State, sha: Sha256) {
    && (Holds(after.visible, t, sha) || Holds(after.visible, s, sha))
    && (forall d :: d in after.maybe ==>
          d in before.maybe || Holds(d, s, sha) || (Holds(d, t, sha) && Holds(after.visible, t, sha)))
    && (after.entryUnsynced ==> before.entryUnsynced)
    && (before.visible in before.maybe ==> after.visible in after.maybe)
  }

  /** Only the new state, everywhere. */
  ghost predicate OnlyNew(after: Disk, t: State, sha: Sha256) {
    Holds(after.visible, t, sha) && forall d :: d in after.maybe ==> Holds(d, t, sha)
  }

  lemma FirstWrite(k: Disk, s: State, t: State, bytes: seq<byte>, env: WriteEnv, sha: Sha256)
    requires k.visible.Present? && Holds(k.visible, s, sha) && ValidState(t)
    requires t.generation == s.generation + 1 || (t == s && Atomic(env))
    requires TornOk(env, sha) && Decode(ReadSlot(File(bytes), false), sha) == Ok(t)
    ensures
      var after := WriteTo(k, FirstIsB(t.generation), bytes, env);
      && OldOrNew(k, after, s, t, sha) && after.entryUnsynced == k.entryUnsynced
      && (SlotResult(bytes, env) == SlotWritten ==>
            && after.maybe == {after.visible} && Holds(after.visible, t, sha)
            && SlotAt(after.visible, FirstIsB(t.generation)) == File(bytes))
      && (SlotResult(bytes, env) == RandomFailed ==> after == k)
  {
    hide Holds, Decode, ReadSlot, FirstIsB, ValidState;
    var isB := FirstIsB(t.generation);
    if t == s {
      PutAgain(k.visible, s, isB, sha, bytes);
    } else {
      PutNext(k.visible, s, t, sha, bytes);
      if env.rename.LostTorn? {
        PutNext(k.visible, s, t, sha, env.rename.torn);
      }
    }
  }

  lemma BothWrites(k: Disk, s: State, t: State, bytes: seq<byte>, env: PersistEnv, sha: Sha256)
    requires k.visible.Present? && Holds(k.visible, s, sha) && ValidState(t)
    requires t.generation == s.generation + 1 || (t == s && Atomic(env.first))
    requires TornOk(env.first, sha) && TornOk(env.second, sha) && Decode(ReadSlot(File(bytes), false), sha) == Ok(t)
    ensures
      var (after, status) := WriteSlots(k, FirstIsB(t.generation), bytes, env);
      && OldOrNew(k, after, s, t, sha)
      && (Succeeded(status) ==>
            OnlyNew(after, t, sha) && (after.entryUnsynced ==> status == Some(WrittenDegraded)))
      && (status == Some(RandomUnavailable) ==> after == k) && status != Some(RootUntrusted)
      && (status == Some(Written) ==>
            && after.maybe == {after.visible} && after.visible.Present?
            && DecodeSlot(after.visible, true, sha) == Ok(t) && DecodeSlot(after.visible, false, sha) == Ok(t))
  {
    hide Holds, Decode, ReadSlot, FirstIsB, Prepared, ValidState, WriteTo, SlotResult, TornOk;
    var isB := FirstIsB(t.generation);
    FirstWrite(k, s, t, bytes, env.first, sha);
    var one := WriteTo(k, isB, bytes, env.first);
    if SlotResult(bytes, env.first) == SlotWritten {
      SecondWrite(one, t, bytes, env.second, sha);
      var two := WriteTo(one, !isB, bytes, env.second);
      assert OldOrNew(k, two, s, t, sha) && OnlyNew(two, t, sha);
      assert two.entryUnsynced == k.entryUnsynced;
      if SlotResult(bytes, env.second) == SlotWritten {
        assert SlotAt(two.visible, true) == File(bytes) && SlotAt(two.visible, false) == File(bytes);
        assert DecodeSlot(two.visible, true, sha) == Ok(t) && DecodeSlot(two.visible, false, sha) == Ok(t);
      }
    } else {
      assert OldOrNew(k, one, s, t, sha);
    }
  }

  lemma NothingHappened(k: Disk, s: State, t: State, sha: Sha256)
    requires Holds(k.visible, s, sha)
    ensures OldOrNew(k, k, s, t, sha)
    ensures !Succeeded(None) && !Succeeded(Some(RootUntrusted))
  {
    hide Holds;
  }

  lemma HoldsIsPresent(d: Directory, s: State, sha: Sha256)
    requires Holds(d, s, sha)
    ensures d.Present? && ValidState(s) && AppId(s.appId)
  {
  }

  lemma ValidHasAppId(s: State)
    requires ValidState(s)
    ensures AppId(s.appId)
  {
  }

  lemma PersistedOpens(k: Disk, s: State, sha: Sha256, env: PersistEnv)
    requires AppId(s.appId) && Encode(s, sha).Ok? && k.visible.Present?
    ensures Persisted(k, s, sha, env) ==
      match env.opening
      case Untrusted(_) => (k, Some(RootUntrusted))
      case LostOpening(_) => (k, None)
      case Opened => WriteSlots(k, FirstIsB(s.generation), Encode(s, sha).value, env)
  {
    hide AppId, Encode, WriteSlots, FirstIsB;
  }

  /** Crash safety of a commit. Whatever happens while the next generation is persisted, even if the slot
      being written is torn: what is visible afterwards is the old state or the new one; power loss
      leaves one of them or what it might have left before; after a reported success only the new one,
      unless the directory itself was never synced and the sync above it fails again. */
  lemma PersistNextGeneration(k: Disk, s: State, t: State, sha: Sha256, env: PersistEnv)
    requires Available(sha) && Holds(k.visible, s, sha)
    requires ValidState(t) && t.generation == s.generation + 1
    requires TornOk(env.first, sha) && TornOk(env.second, sha)
    ensures
      var (after, status) := Persisted(k, t, sha, env);
      && OldOrNew(k, after, s, t, sha)
      && (Succeeded(status) ==>
            OnlyNew(after, t, sha) && (after.entryUnsynced ==> status == Some(WrittenDegraded)))
      && (status == Some(RandomUnavailable) || status == Some(RootUntrusted) ==> after == k)
      && (status == Some(Written) ==>
            && after.maybe == {after.visible} && after.visible.Present?
            && DecodeSlot(after.visible, true, sha) == Ok(t) && DecodeSlot(after.visible, false, sha) == Ok(t))
  {
    hide *;
    EncodedSlotDecodes(t, sha);
    ValidHasAppId(t);
    HoldsIsPresent(k.visible, s, sha);
    NothingHappened(k, s, t, sha);
    PersistedOpens(k, t, sha, env);
    BothWrites(k, s, t, Encode(t, sha).value, env, sha);
  }

  /** Writing the same generation again, as an idempotent activation does, relies on the rename being
      atomic. */
  lemma PersistSameGeneration(k: Disk, s: State, sha: Sha256, env: PersistEnv)
    requires Available(sha) && Holds(k.visible, s, sha) && Atomic(env.first) && TornOk(env.second, sha)
    ensures
      var (after, status) := Persisted(k, s, sha, env);
      && OldOrNew(k, after, s, s, sha)
      && (Succeeded(status) ==> OnlyNew(after, s, sha))
  {
    hide *;
    HoldsIsPresent(k.visible, s, sha);
    EncodedSlotDecodes(s, sha);
    NothingHappened(k, s, s, sha);
    AtomicIsNotTorn(env.first, sha);
    PersistedOpens(k, s, sha, env);
    BothWrites(k, s, s, Encode(s, sha).value, env, sha);
  }

  /** Without atomic rename the repeated write is safe exactly when the redundancy is intact: tearing its
      first slot keeps the state if and only if the other slot already holds it. */
  lemma TornRewriteNeedsRedundancy(d: Directory, s: State, sha: Sha256, torn: seq<byte>)
    requires Available(sha) && Holds(d, s, sha) && Decode(ReadSlot(File(torn), false), sha).Err?
    ensures
      var after := WithSlot(d, FirstIsB(s.generation), File(torn));
      Load(after, s.appId, sha).1 == Some(s) <==> DecodeSlot(d, !FirstIsB(s.generation), sha) == Ok(s)
  {
    hide Decode, Encode, Text.AppId;
    EmptyUndecodable(sha);
  }

  /** Whatever was there, after full success both slots hold the state written, and nothing else is left; after
      an answer that is no success, everything that was possible still is. */
  lemma WritesAnswer(k: Disk, isB: bool, t: State, bytes: seq<byte>, env: PersistEnv, sha: Sha256)
    requires k.visible.Present? && ValidState(t) && Decode(ReadSlot(File(bytes), false), sha) == Ok(t)
    ensures
      var (after, status) := WriteSlots(k, isB, bytes, env);
      && (status == Some(Written) ==> Redundant(after.visible, t, sha) && after.maybe == {after.visible})
      && (status.Some? && !Succeeded(status) ==> k.maybe <= after.maybe)
  {
    hide Decode, ReadSlot, ValidState, Reached;
  }

  lemma PersistAnswers(k: Disk, t: State, env: PersistEnv, sha: Sha256)
    requires Available(sha) && k.visible.Present? && ValidState(t)
    ensures
      var (after, status) := Persisted(k, t, sha, env);
      && (status == Some(Written) ==> Redundant(after.visible, t, sha) && after.maybe == {after.visible})
      && (status.Some? && !Succeeded(status) ==> k.maybe <= after.maybe)
  {
    hide *;
    EncodedSlotDecodes(t, sha);
    ValidHasAppId(t);
    PersistedOpens(k, t, sha, env);
    RefusedIsNoSuccess();
    WritesAnswer(k, FirstIsB(t.generation), t, Encode(t, sha).value, env, sha);
  }

  lemma FirstWritten(t: State, env: PersistEnv, sha: Sha256)
    requires Available(sha) && ValidState(t)
    ensures
      var (after, status) := Persisted(Settled(Absent), t, sha, env);
      status == Some(Written) ==> Redundant(after.visible, t, sha) && after.maybe == {after.visible}
  {
    hide *;
    EncodedSlotDecodes(t, sha);
    ValidHasAppId(t);
    PersistedCreates(t, sha, env);
    RefusedIsNoSuccess();
    BlankIsPresent();
    WritesAnswer(Settled(Present(Missing, Missing)), FirstIsB(t.generation), t, Encode(t, sha).value, env, sha);
  }

  lemma BlankIsPresent()
    ensures Settled(Present(Missing, Missing)).visible.Present?
  {
  }

  /** A commit reports success exactly when the store can be opened, the first slot is written and synced, and power
      is not lost in writing the second. */
  lemma SucceededExactly(k: Disk, t: State, sha: Sha256, env: PersistEnv)
    requires Available(sha) && ValidState(t)
    ensures Encode(t, sha).Ok?
    ensures
      var bytes := Encode(t, sha).value;
      Succeeded(Persisted(k, t, sha, env).1) <==>
        && env.opening.Opened? && SlotResult(bytes, env.first) == SlotWritten
        && SlotResult(bytes, env.second) != PowerLost
  {
    EncodedSlotDecodes(t, sha);
    ValidHasAppId(t);
    hide Encode, AppId, Available, ValidState, WriteTo, SlotResult, FirstIsB;
  }

  lemma RefusedIsNoSuccess()
    ensures !Succeeded(None) && !Succeeded(Some(RootUntrusted))
  {
  }

  lemma BlankWrite(isB: bool, s: State, sha: Sha256, bytes: seq<byte>)
    requires Available(sha) && ValidState(s) && isB == FirstIsB(s.generation)
    ensures
      var d := WithSlot(Present(Missing, Missing), isB, File(bytes));
      && (Decode(ReadSlot(File(bytes), false), sha) == Ok(s) ==> Holds(d, s, sha))
      && (Decode(ReadSlot(File(bytes), false), sha).Err? ==> Load(d, s.appId, sha).1.None?)
  {
    EmptyUndecodable(sha);
    hide Decode, Text.AppId, ValidState;
  }

  /** The state, or nothing that loads. */
  ghost predicate HoldsOrNone(d: Directory, s: State, sha: Sha256) {
    Holds(d, s, sha) || Load(d, s.appId, sha).1.None?
  }

  lemma BlankLoadsNothing(appId: seq<byte>, sha: Sha256)
    ensures Load(Absent, appId, sha).1.None? && Load(Present(Missing, Missing), appId, sha).1.None?
    ensures forall f :: LoadFaulty(Present(Missing, Missing), appId, sha, f).1.None?
    ensures forall f :: LoadFaulty(Absent, appId, sha, f).1.None?
  {
  }

  /** What is visible, and all that power loss may leave, is the state or nothing that loads. */
  ghost predicate NewOrNothing(after: Disk, s: State, sha: Sha256) {
    && HoldsOrNone(after.visible, s, sha) && (forall d :: d in Outcomes(after) ==> HoldsOrNone(d, s, sha))
    && after.visible in after.maybe && (after.visible.Absent? ==> after == Settled(Absent))
    && (after.entryUnsynced ==> Load(after.visible, s.appId, sha).1.None?)
  }

  /** The first commit, into a store that does not exist yet: what is visible, and all that power loss may
      leave, is the state or nothing that loads, and after a reported success only the state. */
  lemma FirstPersist(s: State, sha: Sha256, env: PersistEnv)
    requires Available(sha) && ValidState(s) && TornOk(env.first, sha) && TornOk(env.second, sha)
    ensures
      var (after, status) := Persisted(Settled(Absent), s, sha, env);
      NewOrNothing(after, s, sha) && (Succeeded(status) ==> OnlyNew(after, s, sha) && !after.entryUnsynced)
  {
    hide *;
    EncodedSlotDecodes(s, sha);
    ValidHasAppId(s);
    NothingYet(s, sha);
    PersistedCreates(s, sha, env);
    if env.opening.Opened? {
      BlankWrites(FirstIsB(s.generation), s, Encode(s, sha).value, env, sha);
    }
  }

  lemma NothingYet(s: State, sha: Sha256)
    ensures NewOrNothing(Settled(Absent), s, sha)
    ensures NewOrNothing(Disk(Present(Missing, Missing), {Present(Missing, Missing)}, true), s, sha)
    ensures !Succeeded(None) && !Succeeded(Some(RootUntrusted))
  {
    BlankLoadsNothing(s.appId, sha);
    hide Load, Holds;
  }

  lemma PersistedCreates(s: State, sha: Sha256, env: PersistEnv)
    requires AppId(s.appId) && Encode(s, sha).Ok?
    ensures
      var none, made := Settled(Absent), Disk(Present(Missing, Missing), {Present(Missing, Missing)}, true);
      Persisted(none, s, sha, env) ==
      match env.opening
      case Untrusted(created) => (if created then made else none, Some(RootUntrusted))
      case LostOpening(created) => (if created then made else none, None)
      case Opened =>
        WriteSlots(Settled(Present(Missing, Missing)), FirstIsB(s.generation), Encode(s, sha).value, env)
  {
    hide AppId, Encode, WriteSlots, FirstIsB;
  }

  lemma BlankFirst(isB: bool, s: State, bytes: seq<byte>, env: WriteEnv, sha: Sha256)
    requires Available(sha) && ValidState(s) && isB == FirstIsB(s.generation)
    requires TornOk(env, sha) && Decode(ReadSlot(File(bytes), false), sha) == Ok(s)
    ensures
      var after := WriteTo(Settled(Present(Missing, Missing)), isB, bytes, env);
      && HoldsOrNone(after.visible, s, sha) && (forall d :: d in after.maybe ==> HoldsOrNone(d, s, sha))
      && after.visible in after.maybe && !after.entryUnsynced
      && (SlotResult(bytes, env) == SlotWritten ==> Holds(after.visible, s, sha) && after.maybe == {after.visible})
  {
    hide Decode, Holds, ReadSlot, FirstIsB, Prepared, ValidState, Load, Available;
    BlankLoadsNothing(s.appId, sha);
    BlankWrite(isB, s, sha, bytes);
    if env.rename.LostTorn? {
      BlankWrite(isB, s, sha, env.rename.torn);
    }
  }

  lemma BlankWrites(isB: bool, s: State, bytes: seq<byte>, env: PersistEnv, sha: Sha256)
    requires Available(sha) && ValidState(s) && isB == FirstIsB(s.generation)
    requires TornOk(env.first, sha) && TornOk(env.second, sha) && Decode(ReadSlot(File(bytes), false), sha) == Ok(s)
    ensures
      var (after, status) := WriteSlots(Settled(Present(Missing, Missing)), isB, bytes, env);
      && NewOrNothing(after, s, sha) && !after.entryUnsynced
      && (Succeeded(status) ==> OnlyNew(after, s, sha))
  {
    hide Decode, Holds, ReadSlot, FirstIsB, Prepared, ValidState, Load, Available, WriteTo, SlotResult, TornOk;
    BlankFirst(isB, s, bytes, env.first, sha);
    var one := WriteTo(Settled(Present(Missing, Missing)), isB, bytes, env.first);
    if SlotResult(bytes, env.first) == SlotWritten {
      SecondWrite(one, s, bytes, env.second, sha);
    }
  }

  /** A store is left uninitialized by its first commit exactly when its directory was created while
      opening it was refused or lost, or when the write of the first slot put nothing there. Only in the
      first case can power loss still take the empty directory away. */
  lemma UninitializedExactly(s: State, sha: Sha256, env: PersistEnv)
    requires Available(sha) && ValidState(s)
    ensures Encode(s, sha).Ok?
    ensures
      var filled := Prepared(Encode(s, sha).value, env.first)
        && (env.first.rename.Renamed? || env.first.rename.LostTorn?);
      Load(Persisted(Settled(Absent), s, sha, env).0.visible, s.appId, sha).0 == Uninitialized <==>
        || (env.opening.Untrusted? && env.opening.created)
        || (env.opening.LostOpening? && env.opening.created)
        || (env.opening.Opened? && !filled)
    ensures
      var after := Persisted(Settled(Absent), s, sha, env).0;
      Load(after.visible, s.appId, sha).0 == Uninitialized ==>
        after == Disk(Present(Missing, Missing), {Present(Missing, Missing)}, !env.opening.Opened?)
  {
    EncodedSlotDecodes(s, sha);
    ValidHasAppId(s);
    hide Decode, Encode, Text.AppId, Prepared, ValidState, Available;
    if env.opening.Opened? {
      UninitializedWrites(FirstIsB(s.generation), s.appId, Encode(s, sha).value, env, sha);
    }
  }

  lemma UninitializedWrites(isB: bool, appId: seq<byte>, bytes: seq<byte>, env: PersistEnv, sha: Sha256)
    requires AppId(appId)
    ensures
      var after := WriteSlots(Settled(Present(Missing, Missing)), isB, bytes, env).0;
      && (Load(after.visible, appId, sha).0 == Uninitialized <==>
            !(Prepared(bytes, env.first) && (env.first.rename.Renamed? || env.first.rename.LostTorn?)))
      && (Load(after.visible, appId, sha).0 == Uninitialized ==> after == Settled(Present(Missing, Missing)))
  {
    hide Decode, Text.AppId, Prepared, Select;
  }

  /** Nothing goes wrong in a slot write: the temporary file is complete and synced, renamed, and the rename synced. */
  predicate Whole(size: nat, env: WriteEnv) {
    env == WriteEnv(true, true, env.counts, true, Renamed(Done)) && Reached(size, env.counts) == size
  }

  /** The write gets as far as the rename, and power is lost there. */
  predicate Lost(size: nat, env: WriteEnv) {
    && env == WriteEnv(true, true, env.counts, true, env.rename) && Reached(size, env.counts) == size
    && (env.rename.LostBefore? || env.rename.LostTorn? || env.rename == Renamed(LostUnsynced))
  }

  /** What each answer of a commit means, for a record of 320 bytes and the identifier. */
  lemma AnswerMeans(k: Disk, s: State, sha: Sha256, env: PersistEnv)
    requires Available(sha)
    ensures
      var status, size := Persisted(k, s, sha, env).1, |s.appId| + 320;
      var (one, two) := (Whole(size, env.first), Whole(size, env.second));
      var ready := ValidState(s) && env.opening.Opened?;
      && (status == Some(InvalidArgument) <==> !AppId(s.appId))
      && (status == Some(StateInvalid) <==> AppId(s.appId) && !ValidState(s))
      && (status == Some(RootUntrusted) <==> ValidState(s) && env.opening.Untrusted?)
      && (status == Some(Written) <==> ready && one && two && env.parentsSynced)
      && (status == Some(WrittenDegraded) <==>
            ready && one && !Lost(size, env.second) && !(two && env.parentsSynced))
      && (status == Some(RandomUnavailable) <==> ready && !env.first.randomOk)
      && (status == Some(IoError) <==> ready && env.first.randomOk && !one && !Lost(size, env.first))
      && (status == None <==>
            || (ValidState(s) && env.opening.LostOpening?)
            || (ready && (Lost(size, env.first) || (one && Lost(size, env.second)))))
  {
    if ValidState(s) {
      SizeAlwaysFits(s, sha);
      ValidHasAppId(s);
      assert TotalSize(s) == |s.appId| + 320;
      var bytes := Encode(s, sha).value;
      SlotResultMeans(bytes, env.first);
      SlotResultMeans(bytes, env.second);
    }
    hide AppId, Available, ValidState, SlotResult, Whole, Lost, WriteTo, FirstIsB, Body, TotalSize;
  }

  lemma SlotResultMeans(bytes: seq<byte>, env: WriteEnv)
    ensures SlotResult(bytes, env) == SlotWritten <==> Whole(|bytes|, env)
    ensures SlotResult(bytes, env) == PowerLost <==> Lost(|bytes|, env)
    ensures SlotResult(bytes, env) == RandomFailed <==> !env.randomOk
    ensures Whole(|bytes|, env) || Lost(|bytes|, env) ==> env.randomOk
    ensures !(Whole(|bytes|, env) && Lost(|bytes|, env))
  {
  }

  /** Where a commit writes: slot b first when the generation is even, and slot a when it is odd. A commit that
      fails before its first rename changes nothing, one that fails after it has replaced that slot alone, and one
      that is whole has replaced both and leaves nothing to chance. */
  lemma SlotsInOrder(a: Slot, b: Slot, s: State, sha: Sha256, env: PersistEnv)
    requires Available(sha) && ValidState(s) && env.opening.Opened?
    ensures Encode(s, sha).Ok?
    ensures
      var bytes := Encode(s, sha).value;
      var after := Persisted(Settled(Present(a, b)), s, sha, env).0;
      var one := if s.generation % 2 == 0 then Present(a, File(bytes)) else Present(File(bytes), b);
      && (|| !env.first.randomOk || !env.first.createOk || Reached(|bytes|, env.first.counts) < |bytes|
          || !env.first.fileSynced || env.first.rename.RenameFailed? || env.first.rename.LostBefore?
          ==> after == Settled(Present(a, b)))
      && (Whole(|bytes|, env.first) && !env.second.randomOk ==> after == Settled(one))
      && (Whole(|bytes|, env.first) && Whole(|bytes|, env.second) && env.parentsSynced ==>
            after == Settled(Present(File(bytes), File(bytes))))
  {
    SizeAlwaysFits(s, sha);
    ValidHasAppId(s);
    hide Encode, AppId, Available, ValidState, Reached;
  }

  /** What each answer of a load means. Two absent files are an uninitialized store, unless one could not be
      read; one absent file is a degraded store at best. */
  lemma LoadAnswerMeans(d: Directory, appId: seq<byte>, sha: Sha256, f: Faults)
    requires Available(sha)
    ensures
      var (status, state) := LoadFaulty(d, appId, sha, f);
      && (status == InvalidArgument <==> !AppId(appId))
      && (status == RootUntrusted <==> AppId(appId) && f.opening)
      && (status == NotFound <==> AppId(appId) && !f.opening && d == Absent)
      && (status == Uninitialized <==>
            AppId(appId) && !f.opening && d == Present(Missing, Missing) && !f.a && !f.b)
      && (state.Some? <==> status == Loaded || status == LoadedDegraded)
      && (status == Loaded ==> d.Present? && d.a.File? && d.b.File? && !f.a && !f.b)
      && status in {InvalidArgument, RootUntrusted, NotFound, Uninitialized, StateInvalid, Loaded, LoadedDegraded}
  {
    EmptyUndecodable(sha);
    hide Decode, AppId;
  }
}
