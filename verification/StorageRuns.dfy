/** Sessions of the record storage: openings, reads, writes and power losses, in any order. */
module StorageRuns {
  import opened Bytes
  import opened FileWrite
  import opened StorageProtocol
  import opened StorageBroker

  /** Every session opens the directory once, and then handles its requests. */
  datatype Event =
    | Open
    | Write(request: Request, env: WriteEnv)
    | Read(request: Request, readEnv: ReadEnv)
    | PowerLoss

  predicate Requests(e: Event) { e.Write? || e.Read? }

  /** The directory after a request that is not cut short, and whether power was lost in it. */
  function Perform(h: Handle, e: Event, l: Limits): (Handle, bool)
    requires Requests(e)
  {
    match e
    case Write(r, env) => var (after, status) := Written(h, r, l, env); (after, status.None?)
    case Read(r, env) => var (after, answer) := ReadOf(h, r, l, env); (after, answer.None?)
  }

  function ScanEnvOf(e: Event): ScanEnv
    requires Requests(e)
  {
    if e.Write? then e.env.scan else e.readEnv.scan
  }

  /** A request that was decoded, and a listing that the descriptor can give. */
  ghost predicate Possible(h: Handle, e: Event)
    requires Requests(e)
  {
    && ValidRequest(e.request)
    && e.request.command == (if e.Write? then WRITE else READ)
    && Listed(ScanEnvOf(e), h)
  }

  /** Power loss leaves one of the possible contents, and the next session opens the directory anew. */
  ghost predicate Survives(k: Volume, after: Handle) { exists d :: d in k.maybe && after == Handle(Settled(d), Start) }

  /** What may come of an event. */
  ghost predicate Follows(h: Handle, e: Event, after: Handle, l: Limits) {
    match e
    case Open => after == Handle(h.volume, Start)
    case PowerLoss => Survives(h.volume, after)
    case _ =>
      && Possible(h, e)
      && var (done, lost) := Perform(h, e, l);
      if lost then Survives(done.volume, after) else after == done
  }

  /** Whether the event writes to the records. */
  ghost predicate Writes(h: Handle, e: Event, l: Limits) { e.Write? && Admitted(h, e.request, l, e.env.scan) }

  /** Everything possible after an event was possible before it, or has the records that were visible, or
      those an admitted write makes of them. */
  ghost predicate Steps(h: Handle, e: Event, after: Volume, l: Limits) {
    var k, m := h.volume, Records(h.volume.visible);
    && after.visible in after.maybe
    && forall d :: d in after.maybe ==>
      || d in k.maybe
      || ((AllRegular(k.visible) ==> AllRegular(d))
          && (Records(d) == m || (Writes(h, e, l) && Records(d) == Updated(m, e.request))))
  }

  lemma RequestSteps(h: Handle, e: Event, l: Limits)
    requires Requests(e) && Possible(h, e) && h.volume.visible in h.volume.maybe
    ensures Steps(h, e, Perform(h, e, l).0.volume, l)
  {
    hide Records, ScanOf, Written, Answer, AllRegular, Listed, Admitted, ValidRequest;
    if e.Write? {
      WriteCommand(e.request);
      WriteIsAtomic(h, e.request, l, e.env);
    } else {
      ScanStays(h.volume, e.readEnv.scan);
    }
  }

  lemma WriteCommand(r: Request)
    requires ValidRequest(r) && r.command == WRITE
    ensures ValidName(r.record) && 0 < |r.data| <= MAXIMUM_RECORD
  {
    hide ValidName;
  }

  lemma ScanStays(k: Volume, env: ScanEnv)
    requires k.visible in k.maybe
    ensures
      var after := ScanOf(k, env).0;
      && after.visible in after.maybe
      && forall d :: d in after.maybe ==>
        d in k.maybe || (Records(d) == Records(k.visible) && (AllRegular(k.visible) ==> AllRegular(d)))
  {
    hide ScanFrom, Records;
    ScanKeepsRecords(k, env.order, Usage(0, 0), false, env);
  }

  lemma EventSteps(h: Handle, e: Event, after: Handle, l: Limits)
    requires h.volume.visible in h.volume.maybe && Follows(h, e, after, l)
    ensures Steps(h, e, after.volume, l)
  {
    hide Perform, Records, AllRegular, Possible, Admitted;
    if Requests(e) {
      RequestSteps(h, e, l);
    }
  }

  ghost predicate Run(states: seq<Handle>, events: seq<Event>, l: Limits) {
    && |states| == |events| + 1 && states[0].volume.visible in states[0].volume.maybe
    && forall i :: 0 <= i < |events| ==> Follows(states[i], events[i], states[i + 1], l)
  }

  lemma {:induction false} RunIsVisible(states: seq<Handle>, events: seq<Event>, l: Limits, i: nat)
    requires Run(states, events, l) && i < |states|
    ensures states[i].volume.visible in states[i].volume.maybe
  {
    hide Follows;
    if i > 0 {
      RunIsVisible(states, events, l, i - 1);
      EventSteps(states[i - 1], events[i - 1], states[i], l);
    }
  }

  /** Everything that power loss may leave is sound. */
  ghost predicate SoundAll(k: Volume) {
    k.visible in k.maybe && forall d :: d in k.maybe ==> Sound(d)
  }

  /** And within the limits. */
  ghost predicate WithinAll(k: Volume, l: Limits) {
    k.visible in k.maybe && forall d :: d in k.maybe ==> Within(d, l)
  }

  lemma EventKeepsSound(h: Handle, e: Event, after: Handle, l: Limits)
    requires SoundAll(h.volume) && Follows(h, e, after, l)
    ensures SoundAll(after.volume)
  {
    EventSteps(h, e, after, l);
    assert Sound(h.volume.visible);
    if e.Write? {
      assert Possible(h, e);
      ProperWith(Records(h.volume.visible), e.request);
    }
    hide Records, AllProper, ValidRequest, Listed, Follows, AllRegular, Admitted;
  }

  /** In every session the records stay proper, whatever is admitted. */
  lemma {:induction false} RecordsStayProper(states: seq<Handle>, events: seq<Event>, l: Limits, i: nat)
    requires Run(states, events, l) && SoundAll(states[0].volume) && i < |states|
    ensures SoundAll(states[i].volume)
  {
    hide SoundAll, Follows;
    if i > 0 {
      RecordsStayProper(states, events, l, i - 1);
      EventKeepsSound(states[i - 1], events[i - 1], states[i], l);
    }
  }

  /** Every write is guarded. */
  ghost predicate GuardedRun(states: seq<Handle>, events: seq<Event>, l: Limits) {
    |states| == |events| + 1
    && forall i :: 0 <= i < |events| && events[i].Write? ==> Guarded(states[i], events[i].request, l)
  }

  lemma EventKeepsLimits(h: Handle, e: Event, after: Handle, l: Limits)
    requires WithinAll(h.volume, l) && Follows(h, e, after, l)
    requires e.Write? ==> Guarded(h, e.request, l)
    ensures WithinAll(after.volume, l)
  {
    hide Records, AllProper, Total, ValidRequest, Listed, AllRegular, Admitted, Guarded, Perform;
    EventSteps(h, e, after, l);
    assert Within(h.volume.visible, l);
    if e.Write? {
      assert Possible(h, e);
      ProperWith(Records(h.volume.visible), e.request);
      if Writes(h, e, l) {
        AdmittedFits(h, e.request, l, e.env.scan);
      }
    }
    hide Follows;
  }

  /** The quota holds over every run in which every write is guarded, with power lost anywhere: the records
      that are visible, and those power loss may leave, stay proper and within the number and size allowed. */
  lemma {:induction false} QuotaHolds(states: seq<Handle>, events: seq<Event>, l: Limits, i: nat)
    requires Run(states, events, l) && GuardedRun(states, events, l) && WithinAll(states[0].volume, l) && i < |states|
    ensures WithinAll(states[i].volume, l)
  {
    hide WithinAll, Follows, Guarded;
    if i > 0 {
      QuotaHolds(states, events, l, i - 1);
      EventKeepsLimits(states[i - 1], events[i - 1], states[i], l);
    }
  }

  /** A caller that opens the directory before every write guards them all. */
  predicate OpensFirst(events: seq<Event>) {
    forall i :: 0 <= i < |events| && events[i].Write? ==> i > 0 && events[i - 1].Open?
  }

  lemma OpeningFirstIsGuarded(states: seq<Handle>, events: seq<Event>, l: Limits)
    requires Run(states, events, l) && OpensFirst(events)
    ensures GuardedRun(states, events, l)
  {
    hide FitsTruly, Admissible;
    forall i | 0 <= i < |events| && events[i].Write?
      ensures Guarded(states[i], events[i].request, l)
    {
      assert Follows(states[i - 1], events[i - 1], states[i], l);
    }
  }

  /** And nothing less will do: the run may go on with a write in which nothing goes wrong, and stays within the
      limits if and only if that write is guarded. */
  lemma UnguardedWriteExceeds(
    states: seq<Handle>, events: seq<Event>, l: Limits, i: nat)
    requires Run(states, events, l) && i < |events| && WithinAll(states[i].volume, l)
    requires events[i].Write? && Flawless(states[i], events[i].request, events[i].env)
    ensures WithinAll(states[i + 1].volume, l) <==> Guarded(states[i], events[i].request, l)
  {
    hide Records, AllProper, Total, ValidRequest, Listed, AllRegular, Admitted, Guarded, Flawless, Written, Within;
    var h, e := states[i], events[i];
    assert Follows(h, e, states[i + 1], l) && Possible(h, e);
    FlawlessWrite(h, e.request, l, e.env);
    GuardExactly(h, e.request, l, e.env);
    if Guarded(h, e.request, l) {
      EventKeepsLimits(h, e, states[i + 1], l);
    }
  }

  /** The inputs that show it, in any session that has made one request. On a store that is full already, another
      record is admitted; and a record that is there is refused, whatever the limits are. */
  lemma LaterWrites(h: Handle, r: Request, l: Limits, env: WriteEnv)
    requires Within(h.volume.visible, l) && h.position.End? && ValidRequest(r) && r.command == WRITE
    requires Flawless(h, r, env)
    ensures r.record in h.volume.visible ==> Written(h, r, l, env) == (h, Some(QUOTA_EXCEEDED))
    ensures
      r.record !in h.volume.visible && |Records(h.volume.visible)| == l.files != 0 && |r.data| <= Quota(l) ==>
      && Written(h, r, l, env).1 == Some(OK)
      && |Records(Written(h, r, l, env).0.volume.visible)| == l.files + 1
  {
    hide Records, AllProper, Total, Lists, AllRegular, Within, Suffix, Reached, Fits, ValidName;
    FlawlessWrite(h, r, l, env);
    WriteIsAtomic(h, r, l, env);
    NothingListed(h.volume, env.scan);
    NotCorrupt(h.volume.visible, h.volume.visible, r, l);
    NotARecord(h.volume.visible, r.record);
    KeysWith(Records(h.volume.visible), r.record, Regular(r.data));
  }

  lemma NotARecord(files: Files, n: Name)
    ensures n !in files ==> n !in Records(files) && Records(files) - {n} == Records(files)
  {
    hide Records;
    assert n in Records(files) ==> n in files by {
      RecordsAreFiles(files);
    }
  }

  lemma RecordsAreFiles(files: Files)
    ensures forall n :: n in Records(files) ==> n in files && Records(files)[n] == files[n]
  {
  }

  /** The same from an empty store with room for one record: opened once, it takes two. */
  lemma TwoRecordsWhereOneFits(r: Request, s: Request, l: Limits, env: WriteEnv, again: WriteEnv)
    requires ValidRequest(r) && r.command == WRITE && ValidRequest(s) && s.command == WRITE && r.record != s.record
    requires l.files == 1 && |r.data| <= Quota(l) && |s.data| <= Quota(l)
    requires Flawless(Handle(Settled(map[]), Start), r, env)
    requires Flawless(Written(Handle(Settled(map[]), Start), r, l, env).0, s, again)
    ensures
      var (h, first) := Written(Handle(Settled(map[]), Start), r, l, env);
      var (after, second) := Written(h, s, l, again);
      && first == Some(OK) && second == Some(OK) && |Records(after.volume.visible)| == 2
  {
    hide AllProper, Total, Listed, Suffix, Reached, Fits, ValidName, Flawless, ValidRequest, ScanOf, Replaced;
    var none := Handle(Settled(map[]), Start);
    EmptyStore(r, l);
    FlawlessListed(none, r, env);
    FlawlessWrite(none, r, l, env);
    WriteIsAtomic(none, r, l, env);
    WrittenReachesEnd(none, r, l, env);
    var h := Written(none, r, l, env).0;
    assert h.volume.visible == map[r.record := Regular(r.data)];
    GuardExactly(none, r, l, env);
    RecordsOfProper(h.volume.visible);
    LaterWrites(h, s, l, again);
  }

  lemma FlawlessListed(h: Handle, r: Request, env: WriteEnv)
    requires Flawless(h, r, env)
    ensures Listed(env.scan, h)
  {
  }

  lemma EmptyStore(r: Request, l: Limits)
    requires l.files == 1 && |r.data| <= Quota(l)
    ensures Within(map[], l) && Records(map[]) == map[] && FitsTruly(Handle(Settled(map[]), Start), r, l)
  {
    hide Temporary;
    var none: Files := map[];
    NothingSeen();
    assert Records(none) == none;
    TotalWith(none, r.record, Regular(r.data));
    assert none - {r.record} == none;
  }

  lemma WrittenReachesEnd(h: Handle, r: Request, l: Limits, env: WriteEnv)
    ensures Written(h, r, l, env).1 == Some(OK) ==> Written(h, r, l, env).0.position.End?
  {
    hide ScanOf, Replaced;
  }

  predicate WritesTo(e: Event, n: Name) { e.Write? && e.request.record == n }

  /** A record is possible with some contents. */
  ghost predicate MayHold(k: Volume, n: Name, value: Entry) {
    exists d :: d in k.maybe && n in Records(d) && Records(d)[n] == value
  }

  /** A record is there, whatever power loss leaves. */
  ghost predicate SurelyThere(k: Volume, n: Name) { forall d :: d in k.maybe ==> n in Records(d) }

  lemma WholeStep(h: Handle, e: Event, after: Volume, l: Limits, n: Name)
    requires h.volume.visible in h.volume.maybe && Steps(h, e, after, l)
    ensures SurelyThere(h.volume, n) ==> SurelyThere(after, n)
    ensures forall d :: d in after.maybe && n in Records(d) ==>
      MayHold(h.volume, n, Records(d)[n]) || (WritesTo(e, n) && Records(d)[n] == Regular(e.request.data))
  {
    hide Records, AllRegular, Admitted;
    var k := h.volume;
    forall d | d in after.maybe && n in Records(d)
      ensures MayHold(k, n, Records(d)[n]) || (WritesTo(e, n) && Records(d)[n] == Regular(e.request.data))
    {
      if d in k.maybe {
        assert MayHold(k, n, Records(d)[n]);
      } else if n in Records(k.visible) && Records(k.visible)[n] == Records(d)[n] {
        assert MayHold(k, n, Records(d)[n]);
      }
    }
  }

  /** Records are whole. At any time, whatever power loss leaves, a record holds something it might have
      held at an earlier point, or the complete data of one of the writes to it since; and a record that
      was there for sure never disappears. */
  lemma {:induction false} RecordsAreWhole(
    states: seq<Handle>, events: seq<Event>, l: Limits, i: nat, j: nat, n: Name, value: Entry)
    requires Run(states, events, l) && i <= j < |states|
    ensures SurelyThere(states[i].volume, n) ==> SurelyThere(states[j].volume, n)
    ensures MayHold(states[j].volume, n, value) ==>
      || MayHold(states[i].volume, n, value)
      || exists k :: i <= k < j && WritesTo(events[k], n) && value == Regular(events[k].request.data)
  {
    hide Follows, Records, Steps, SurelyThere;
    if i < j {
      RecordsAreWhole(states, events, l, i, j - 1, n, value);
      RunIsVisible(states, events, l, j - 1);
      EventSteps(states[j - 1], events[j - 1], states[j], l);
      WholeStep(states[j - 1], events[j - 1], states[j].volume, l, n);
      if MayHold(states[j].volume, n, value) && !MayHold(states[j - 1].volume, n, value) {
        var d :| d in states[j].volume.maybe && n in Records(d) && Records(d)[n] == value;
        assert WritesTo(events[j - 1], n);
      }
    }
  }

  /** The scan lists a leftover, deletes what leftovers it lists, and syncs the directory. */
  predicate Swept(k: Volume, env: ScanEnv) {
    ScanOf(k, env).1.Scanned? && exists i :: 0 <= i < |env.order| && Temporary(env.order[i])
  }

  /** A scan that sweeps settles the directory; any other leaves possible what was. */
  lemma {:induction false} ScanSettles(k: Volume, order: seq<Name>, usage: Usage, cleaned: bool, env: ScanEnv)
    ensures
      var (after, result) := ScanFrom(k, order, usage, cleaned, env);
      if result.Scanned? && (cleaned || exists i :: 0 <= i < |order| && Temporary(order[i]))
      then after == Settled(after.visible) else k.maybe <= after.maybe
    decreases |order|
  {
    hide Temporary, Countable;
    if order != [] && order[0] in k.visible && k.visible[order[0]].Regular? {
      var name, rest := order[0], order[1..];
      assert forall i :: 0 <= i < |rest| ==> rest[i] == order[i + 1];
      if Temporary(name) {
        ScanSettles(Put(k, k.visible - {name}), rest, usage, true, env);
      } else {
        ScanSettles(k, rest, Usage(usage.files + 1, usage.bytes + |k.visible[name].bytes|), cleaned, env);
        if i :| 0 <= i < |order| && Temporary(order[i]) {
          assert rest[i - 1] == order[i];
        }
      }
    }
  }

  /** What makes a record sure, as far as a caller sees it: a write that answers `ok` does so for the record
      written and for all that are visible, a scan that sweeps for those that were, and power loss for those
      that are left. */
  ghost predicate MakesSure(h: Handle, e: Event, after: Handle, l: Limits, n: Name) {
    match e
    case Open => false
    case PowerLoss => n in Records(after.volume.visible)
    case _ =>
      || (Perform(h, e, l).1 && n in Records(after.volume.visible))
      || (e.Write? && Written(h, e.request, l, e.env).1 == Some(OK) && n in Records(after.volume.visible))
      || (Swept(h.volume, ScanEnvOf(e)) && n in Records(h.volume.visible))
  }

  /** After one write, a record outlives every power loss if and only if it did before, or the write made it
      sure. On a directory that was settled: if and only if it was there, or is the one written and the write
      answered `ok`. */
  lemma WriteMakesSure(h: Handle, r: Request, l: Limits, env: WriteEnv, n: Name)
    requires h.volume.visible in h.volume.maybe && Listed(env.scan, h) && ValidRequest(r) && r.command == WRITE
    ensures
      var (after, status) := Written(h, r, l, env);
      var ok, there := status == Some(OK), n in Records(h.volume.visible);
      && (SurelyThere(after.volume, n) <==>
            || SurelyThere(h.volume, n)
            || (ok && (there || n == r.record))
            || (Swept(h.volume, env.scan) && there))
      && (h.volume == Settled(h.volume.visible) ==>
            (SurelyThere(after.volume, n) <==> there || (ok && n == r.record)))
  {
    hide ScanFrom, Records, Temporary, Lists, ValidRequest, Replaced, Swept, Admitted, Listed;
    var k := h.volume;
    var (after, status) := Written(h, r, l, env);
    WriteIsAtomic(h, r, l, env);
    ScanKeepsRecords(k, env.scan.order, Usage(0, 0), false, env.scan);
    SweptSettles(k, env.scan);
    var (scanned, result) := ScanOf(k, env.scan);
    if result.Scanned? {
      ReplaceIsAtomic(scanned, result.usage, r, l, env);
    }
    if status != Some(OK) && !SurelyThere(k, n) {
      if Swept(k, env.scan) {
        assert scanned.visible in after.volume.maybe;
      } else {
        assert k.maybe <= after.volume.maybe;
      }
    }
  }

  lemma SweptSettles(k: Volume, env: ScanEnv)
    ensures
      var (after, result) := ScanOf(k, env);
      && (Swept(k, env) ==> result.Scanned? && after == Settled(after.visible))
      && (!Swept(k, env) ==> k.maybe <= after.maybe)
  {
    hide ScanFrom, Temporary;
    ScanSettles(k, env.order, Usage(0, 0), false, env);
  }

  lemma ReadMakesSure(h: Handle, r: Request, l: Limits, env: ReadEnv, n: Name)
    requires h.volume.visible in h.volume.maybe
    ensures SurelyThere(ReadOf(h, r, l, env).0.volume, n) <==>
      SurelyThere(h.volume, n) || (Swept(h.volume, env.scan) && n in Records(h.volume.visible))
  {
    hide ScanFrom, Records, Temporary, Swept, Answer;
    ScanKeepsRecords(h.volume, env.scan.order, Usage(0, 0), false, env.scan);
    SweptSettles(h.volume, env.scan);
  }

  lemma SureStep(h: Handle, e: Event, after: Handle, l: Limits, n: Name)
    requires h.volume.visible in h.volume.maybe && Follows(h, e, after, l)
    ensures SurelyThere(after.volume, n) <==> SurelyThere(h.volume, n) || MakesSure(h, e, after, l, n)
  {
    hide Records, Listed, ValidRequest, Written, ReadOf, Swept;
    if Requests(e) {
      var (done, lost) := Perform(h, e, l);
      if e.Write? {
        assert Possible(h, e);
        WriteMakesSure(h, e.request, l, e.env, n);
        OkIsVisible(h, e.request, l, e.env);
      } else {
        ReadMakesSure(h, e.request, l, e.readEnv, n);
      }
      RequestSteps(h, e, l);
      WholeStep(h, e, done.volume, l, n);
    }
  }

  lemma OkIsVisible(h: Handle, r: Request, l: Limits, env: WriteEnv)
    requires Listed(env.scan, h) && ValidRequest(r) && r.command == WRITE
    ensures
      var (after, status) := Written(h, r, l, env);
      status == Some(OK) ==> Records(after.volume.visible) == Updated(Records(h.volume.visible), r)
  {
    hide Records, Listed, ValidRequest, Written;
    WriteIsAtomic(h, r, l, env);
  }

  /** Over every run from a settled directory, a record outlives every power loss if and only if it was there at
      the start or some event since made it sure: a write that answered `ok`, a scan that swept, a power loss that
      left it. */
  lemma {:induction false} SurelyThereExactly(
    states: seq<Handle>, events: seq<Event>, l: Limits, i: nat, j: nat, n: Name)
    requires Run(states, events, l) && i <= j < |states|
    requires states[i].volume == Settled(states[i].volume.visible)
    ensures SurelyThere(states[j].volume, n) <==>
      || n in Records(states[i].volume.visible)
      || exists k :: i <= k < j && MakesSure(states[k], events[k], states[k + 1], l, n)
  {
    hide Follows, Records, MakesSure, SurelyThere;
    if i < j {
      SurelyThereExactly(states, events, l, i, j - 1, n);
      RunIsVisible(states, events, l, j - 1);
      SureStep(states[j - 1], events[j - 1], states[j], l, n);
    } else {
      SettledIsSure(states[i].volume, n);
    }
  }

  lemma SettledIsSure(k: Volume, n: Name)
    requires k == Settled(k.visible)
    ensures SurelyThere(k, n) <==> n in Records(k.visible)
  {
    hide Records;
  }

  /** The input that shows it: a write of a new record whose last sync fails reports an error, the record can
      be read, and power loss may take it away again. */
  lemma UnsyncedRecordMayVanish(h: Handle, r: Request, l: Limits, env: WriteEnv)
    requires h.volume.visible in h.volume.maybe && Listed(env.scan, h) && ValidRequest(r) && r.command == WRITE
    requires Written(h, r, l, env.(directorySynced := true)).1 == Some(OK)
    requires r.record !in Records(h.volume.visible)
    ensures
      var (after, status) := Written(h, r, l, env.(directorySynced := false));
      && status == Some(IO_ERROR) && Records(after.volume.visible) == Updated(Records(h.volume.visible), r)
      && !SurelyThere(after.volume, r.record)
  {
    hide ScanOf, Records, Listed, Fits, Suffix, Corrupt, Reached, Swept, Left, SurelyThere;
    WriteIsAtomic(h, r, l, env.(directorySynced := true));
    WriteMakesSure(h, r, l, env.(directorySynced := false), r.record);
    NotSureIfMissing(h.volume, r.record);
  }

  lemma NotSureIfMissing(k: Volume, n: Name)
    requires k.visible in k.maybe && n !in Records(k.visible)
    ensures !SurelyThere(k, n)
  {
    hide Records;
  }

  /** The record holds this data, whatever power loss leaves. */
  ghost predicate SurelyHolds(k: Volume, n: Name, data: seq<byte>) {
    forall d :: d in k.maybe ==> n in Records(d) && Records(d)[n] == Regular(data)
  }

  /** Acknowledged data stays: after `ok`, and until the next write to the same record, in this session and in
      later ones, whatever else happens and whenever power is lost, the record holds the data written. */
  lemma {:induction false} AcknowledgedStays(states: seq<Handle>, events: seq<Event>, l: Limits, i: nat, j: nat)
    requires Run(states, events, l) && i < j < |states| && events[i].Write?
    requires Written(states[i], events[i].request, l, events[i].env).1 == Some(OK)
    requires forall k :: i < k < j ==> !WritesTo(events[k], events[i].request.record)
    ensures SurelyHolds(states[j].volume, events[i].request.record, events[i].request.data)
  {
    hide Follows, Records, Written, SurelyHolds;
    var r := events[i].request;
    if i + 1 < j {
      AcknowledgedStays(states, events, l, i, j - 1);
      RunIsVisible(states, events, l, j - 1);
      EventSteps(states[j - 1], events[j - 1], states[j], l);
      HoldsStep(states[j - 1], events[j - 1], states[j].volume, l, r.record, r.data);
    } else {
      assert Follows(states[i], events[i], states[j], l);
      WrittenIsHeld(states[i], events[i], states[j], l);
    }
  }

  lemma HoldsStep(h: Handle, e: Event, after: Volume, l: Limits, n: Name, data: seq<byte>)
    requires h.volume.visible in h.volume.maybe && Steps(h, e, after, l)
    requires SurelyHolds(h.volume, n, data) && !WritesTo(e, n)
    ensures SurelyHolds(after, n, data)
  {
    hide Records, AllRegular, Admitted;
  }

  lemma WrittenIsHeld(h: Handle, e: Event, after: Handle, l: Limits)
    requires e.Write? && Follows(h, e, after, l) && Written(h, e.request, l, e.env).1 == Some(OK)
    ensures SurelyHolds(after.volume, e.request.record, e.request.data)
  {
    assert Possible(h, e);
    WriteIsAtomic(h, e.request, l, e.env);
    hide Written, Listed, Records, ValidRequest;
  }

  /** A read in which nothing goes wrong. */
  ghost predicate HealthyRead(h: Handle, env: ReadEnv, size: nat) {
    Healthy(env.scan, h) && env.openOk && env.ended && Reached(size, env.counts) == size
  }

  /** A read after an acknowledged write, with any number of other events and power losses between them. Within
      the limits, and in every session whose directory has been read to its end, it gives back exactly the data
      acknowledged. The first request of a session does so if and only if the records are within the limits:
      beyond them it reports that the store is corrupt. */
  lemma ReadsBackWhatWasAcknowledged(
    states: seq<Handle>, events: seq<Event>, l: Limits, i: nat, j: nat, r: Request, env: ReadEnv)
    requires Run(states, events, l) && SoundAll(states[0].volume) && i < j < |states| && events[i].Write?
    requires Written(states[i], events[i].request, l, events[i].env).1 == Some(OK)
    requires forall k :: i < k < j ==> !WritesTo(events[k], events[i].request.record)
    requires ValidRequest(r) && r.command == READ && r.record == events[i].request.record
    requires r.maximum >= |events[i].request.data| && HealthyRead(states[j], env, |events[i].request.data|)
    ensures
      var h, answer := states[j], ReadOf(states[j], r, l, env).1;
      var fits := FitsWithin(Records(h.volume.visible), l);
      && (fits || h.position.End? ==> answer == Some((OK, events[i].request.data)))
      && (h.position.Start? && !fits ==> answer == Some((STORAGE_CORRUPT, [])))
  {
    var data := events[i].request.data;
    assert Follows(states[i], events[i], states[i + 1], l) && Possible(states[i], events[i]);
    WriteCommand(events[i].request);
    hide Run, Records, ReadOf, Total, HealthyRead, Written, ValidRequest, Within, Follows, FitsWithin, SoundAll;
    RecordsStayProper(states, events, l, j);
    RunIsVisible(states, events, l, j);
    AcknowledgedStays(states, events, l, i, j);
    VisibleIsSound(states[j].volume);
    ReadAnswers(states[j], r, l, env, data);
  }

  lemma VisibleIsSound(k: Volume)
    requires SoundAll(k)
    ensures Sound(k.visible)
  {
    hide Sound;
  }

  lemma ReadAnswers(h: Handle, r: Request, l: Limits, env: ReadEnv, data: seq<byte>)
    requires Sound(h.volume.visible) && HealthyRead(h, env, |data|) && 0 < |data| <= r.maximum
    requires r.record in Records(h.volume.visible) && Records(h.volume.visible)[r.record] == Regular(data)
    ensures
      var answer := ReadOf(h, r, l, env).1;
      var fits := FitsWithin(Records(h.volume.visible), l);
      && (fits || h.position.End? ==> answer == Some((OK, data)))
      && (h.position.Start? && !fits ==> answer == Some((STORAGE_CORRUPT, [])))
  {
    hide Records, ScanFrom, Total, Reached, AllProper, AllRegular, Counts;
    var files := h.volume.visible;
    ScanMeansRecords(h, env.scan);
    ScanKeepsRecords(h.volume, env.scan.order, Usage(0, 0), false, env.scan);
    var scanned := ScanOf(h.volume, env.scan).0.visible;
    RecordsAreFiles(scanned);
    if FitsWithin(Records(files), l) {
      HealthyScanSucceeds(h, env.scan, l);
    }
    if h.position.End? {
      NothingListed(h.volume, env.scan);
    }
    HealthyIsNotLost(h.volume, env.scan);
  }

  lemma HealthyIsNotLost(k: Volume, env: ScanEnv)
    requires !env.lost
    ensures !ScanOf(k, env).1.ScanLost?
  {
    NotLost(k, env.order, Usage(0, 0), false, env);
  }

  lemma {:induction false} NotLost(k: Volume, order: seq<Name>, usage: Usage, cleaned: bool, env: ScanEnv)
    requires !env.lost
    ensures !ScanFrom(k, order, usage, cleaned, env).1.ScanLost?
    decreases |order|
  {
    hide Temporary, Countable;
    if order != [] && order[0] in k.visible && k.visible[order[0]].Regular? {
      var name := order[0];
      NotLost(Put(k, k.visible - {name}), order[1..], usage, true, env);
      NotLost(k, order[1..], Usage(usage.files + 1, usage.bytes + |k.visible[name].bytes|), cleaned, env);
    }
  }
}
