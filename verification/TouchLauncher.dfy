/** The launcher's end of the touch channel. */
module TouchLauncher {
  import opened Bytes
  import opened TouchProtocol
  import opened SessionStatus
  import TouchRouter

  datatype Request = Request(phase: string, contact: u32, x: i32, y: i32)

  /** The session takes touches on a screen of this size. */
  predicate InputReady(s: Session, width: i32, height: i32) {
    s.ready && s.hole && s.width == width && s.height == height && width > 0 && height > 0 && s.input
  }

  /** The clock, whether the touch socket is trusted and could be connected, and whether it then took
      the whole frame. */
  datatype Channel = Channel(clock: Option<u64>, connected: bool, taken: bool)

  /** The session last seen, the frames sent under it, and the screen the installed profile certifies. */
  datatype LauncherState = LauncherState(nonce: u64, sequence: u64, width: i32, height: i32)

  function PhaseValue(phase: string): u32 {
    if phase == "start" then 1
    else if phase == "move" then 2
    else if phase == "end" then 3
    else if phase == "cancel" then 4
    else 0
  }

  /** Reading the status: a nonce not seen last time starts the sequence over. */
  function AfterStatus(l: LauncherState, session: Option<Session>): LauncherState {
    if session.None? || session.value.nonce == 0 || l.nonce == session.value.nonce then l
    else l.(nonce := session.value.nonce, sequence := 0)
  }

  predicate Sendable(l: LauncherState, session: Option<Session>, r: Request, channel: Channel) {
    && session.Some? && session.value.nonce != 0 && InputReady(session.value, l.width, l.height) && l.nonce != 0
    && PhaseValue(r.phase) != 0 && r.contact <= 31 && l.width > 0 && l.height > 0
    && 0 <= r.x < l.width && 0 <= r.y < l.height && l.sequence != U64_MAX
    && channel.clock.Some? && channel.clock.value != 0 && channel.connected
  }

  function FrameOf(l: LauncherState, r: Request, time: u64): Frame {
    Frame(l.nonce, l.sequence, time, PhaseValue(r.phase), r.contact, r.x, r.y, 0)
  }

  /** Reading the installed profile: no screen unless it certifies one. */
  function AfterProfile(l: LauncherState, screen: Option<(i32, i32)>): LauncherState {
    if screen.None? then l.(width := 0, height := 0)
    else l.(width := screen.value.0, height := screen.value.1)
  }

  datatype Action =
    | Status(session: Option<Session>)
    | Profile(screen: Option<(i32, i32)>)
    | Launched
    | Touch(session: Option<Session>, request: Request, channel: Channel)

  function AfterAction(l: LauncherState, a: Action): LauncherState {
    match a
    case Status(session) => AfterStatus(l, session)
    case Profile(screen) => AfterProfile(l, screen)
    case Launched => l.(nonce := 0, sequence := 0)
    case Touch(session, request, channel) =>
      var m := AfterStatus(l, session);
      if Sendable(m, session, request, channel) then m.(sequence := m.sequence + 1) else m
  }

  /** The frame an action puts on the channel, if it does. */
  function SentBy(l: LauncherState, a: Action): Option<Frame> {
    if a.Touch? && Sendable(AfterStatus(l, a.session), a.session, a.request, a.channel)
    then Some(FrameOf(AfterAction(l, a), a.request, a.channel.clock.value))
    else None
  }

  /** The launcher object. */
  class Launcher {
    var nonce: u64
    var sequence: u64
    var width: i32
    var height: i32

    function State(): LauncherState
      reads this
    {
      LauncherState(nonce, sequence, width, height)
    }

    constructor ()
      ensures State() == LauncherState(0, 0, 0, 0)
    {
      nonce, sequence, width, height := 0, 0, 0, 0;
    }

    /** Takes the screen from the text of the installed profile, if the platform's files are safe. */
    method ValidateRelease(safe: bool, profile: seq<byte>) returns (ok: bool)
      modifies this
      ensures State() == AfterAction(old(State()), Profile(if safe then ScreenOf(profile) else None))
      ensures ok == (safe && ScreenOf(profile).Some?)
    {
      width, height := 0, 0;
      if !safe {
        return false;
      }
      var values := ParseStatus(profile);
      var w, h := NumberAt(values, "LOGICAL_WIDTH"), NumberAt(values, "LOGICAL_HEIGHT");
      if w < 240 || w > 4096 || h < 80 || h > 2048
        || (!FlagAt(values, "HOLE_SESSION_CERTIFIED") && !FlagAt(values, "PERSONAL_UNBOUND"))
      {
        return false;
      }
      width, height := w, h;
      ok := true;
    }

    /** Reads the text of the status file; `running` tells which processes are the session daemon. */
    method ReadStatus(contents: seq<byte>, running: nat -> bool) returns (inputReady: bool)
      modifies this
      ensures State() == AfterAction(old(State()), Status(SessionOf(contents, running)))
      ensures
        var session := SessionOf(contents, running);
        inputReady == (session.Some? && InputReady(session.value, width, height))
    {
      hide Ascii, NumberOf;
      var values := ParseStatus(contents);
      var pid, newNonce := NumberAt(values, "SESSION_PID"), NumberAt(values, "SESSION_NONCE");
      if pid > 0x7fff_ffff || newNonce == 0 || !running(pid) {
        return false;
      }
      var ready := Ascii("STATE") in values && values[Ascii("STATE")] == Ascii("ready");
      var holeReady := ready && FlagAt(values, "HOLE_READY");
      var logicalWidth, logicalHeight := NumberAt(values, "LOGICAL_WIDTH"), NumberAt(values, "LOGICAL_HEIGHT");
      var dimensionsValid := logicalWidth == width && logicalHeight == height && width > 0 && height > 0;
      inputReady := holeReady && dimensionsValid && FlagAt(values, "INPUT_READY");
      if nonce != newNonce {
        nonce := newNonce;
        sequence := 0;
      }
    }

    method SessionLaunched()
      modifies this
      ensures State() == AfterAction(old(State()), Launched)
    {
      nonce := 0;
      sequence := 0;
    }

    /** Sends a touch; the frame is written into a zeroed buffer field by field. */
    method SendTouch(contents: seq<byte>, running: nat -> bool, r: Request, channel: Channel)
      returns (ok: bool, sent: Option<seq<byte>>)
      modifies this
      ensures State() == AfterAction(old(State()), Touch(SessionOf(contents, running), r, channel))
      ensures
        var frame := SentBy(old(State()), Touch(SessionOf(contents, running), r, channel));
        && sent == (if frame.Some? then Some(Encoded(frame.value)) else None)
        && ok == (frame.Some? && channel.taken)
    {
      hide FirstHalf, SecondHalf, PhaseValue, SessionOf;
      NonceIsSet(contents, running);
      var inputReady := ReadStatus(contents, running);
      var phase := PhaseValue(r.phase);
      if !inputReady || nonce == 0 {
        return false, None;
      }
      if phase == 0 || r.contact > 31 || width <= 0 || height <= 0
         || r.x < 0 || r.x >= width || r.y < 0 || r.y >= height || sequence == U64_MAX {
        return false, None;
      }
      if channel.clock.None? || channel.clock.value == 0 || !channel.connected {
        return false, None;
      }
      var frame := new byte[WIRE_SIZE](_ => 0);
      sequence := sequence + 1;
      var head := FrameOf(State(), r, channel.clock.value);
      PutFirst(head, frame);
      ghost var first := frame[..32];
      PutRequest(head, phase, r, frame);
      assert frame[..32] == first;
      assert frame[..] == frame[..32] + frame[32..];
      sent := Some(frame[..]);
      ok := channel.taken;
    }
  }

  /** The fields a request fills; flags and the closing word stay zero. */
  method PutRequest(ghost f: Frame, phase: u32, r: Request, output: array<byte>)
    requires output.Length == WIRE_SIZE && forall i :: 48 <= i < WIRE_SIZE ==> output[i] == 0
    requires f.phase == phase && f.contact == r.contact && f.x == r.x && f.y == r.y && f.flags == 0
    modifies output
    ensures output[32..] == SecondHalf(f)
    ensures forall i :: 0 <= i < 32 ==> output[i] == old(output[i])
  {
    PutLe(phase, output, 32, 4);
    PutLe(r.contact, output, 36, 4);
    PutLe(Unsigned(r.x), output, 40, 4);
    PutLe(Unsigned(r.y), output, 44, 4);
    ghost var b := output[..];
    assert output[32..36] == b[32..36] && output[36..40] == b[36..40] && output[40..44] == b[40..44];
    assert output[44..48] == b[44..48];
    ZeroWord(b, 48);
    ZeroWord(b, 52);
    SecondIsSuffix(b, f);
    assert output[32..] == b[32..];
  }

  lemma ZeroWord(b: seq<byte>, at: nat)
    requires at + 4 <= |b| && forall i :: at <= i < at + 4 ==> b[i] == 0
    ensures b[at..at + 4] == Le(4, 0)
  {
  }

  lemma NonceIsSet(contents: seq<byte>, running: nat -> bool)
    ensures
      var session := SessionOf(contents, running);
      session.Some? ==> session.value.nonce != 0
  {
    hide Ascii, NumberOf;
  }

  /** A frame that is sent decodes, on the session's screen, to the request it was made from, under
      the current nonce and the next sequence number. */
  lemma SentDecodesToRequest(l: LauncherState, a: Action)
    requires SentBy(l, a).Some?
    ensures
      var f, after := SentBy(l, a).value, AfterAction(l, a);
      && a.session.value.width == l.width && a.session.value.height == l.height
      && Decode(Encoded(f), l.width, l.height) == Some(f)
      && f.nonce == after.nonce == a.session.value.nonce && f.sequence == after.sequence
      && f.sequence == AfterStatus(l, a.session).sequence + 1
      && f.phase == PhaseValue(a.request.phase) && f.contact == a.request.contact
      && f.x == a.request.x && f.y == a.request.y && f.flags == 0
  {
    hide Encoded, Decode;
    var f := SentBy(l, a).value;
    FrameIsBijection(Encoded(f), f, l.width, l.height);
  }

  /** A launcher joins the session whose status the daemon has published: it takes over its nonce, and its input
      is ready exactly when the daemon says so and the screens are the same. */
  lemma PublishedSessionIsJoined(l: LauncherState, d: Document, running: nat -> bool)
    requires ValidDocument(d) && running(d.pid)
    ensures
      var session := SessionOf(TextOf(Fields(d)), running);
      && session.Some? && AfterStatus(l, session).nonce == d.nonce
      && (l.nonce == d.nonce ==> AfterStatus(l, session) == l)
      && (InputReady(session.value, l.width, l.height) <==> d.input && d.width == l.width && d.height == l.height)
  {
    hide SessionOf, Fields, TextOf;
    StatusIsRead(d, running);
  }

  /** The frames sent by a sequence of actions. */
  function Stream(l: LauncherState, actions: seq<Action>): seq<Frame>
    decreases |actions|
  {
    if actions == [] then []
    else
      (match SentBy(l, actions[0])
       case Some(f) => [f]
       case None => [])
      + Stream(AfterAction(l, actions[0]), actions[1..])
  }

  /** The nonce never changes along the actions, and its session names one screen. */
  predicate OneSession(l: LauncherState, actions: seq<Action>, width: i32, height: i32)
    decreases |actions|
  {
    if actions == [] then true
    else
      var a, after := actions[0], AfterAction(l, actions[0]);
      && (a.Touch? && a.session.Some? ==> a.session.value.width == width && a.session.value.height == height)
      && after.nonce == l.nonce && OneSession(after, actions[1..], width, height)
  }

  /** Valid frames of one session, each newer than the one before. */
  ghost predicate Ascending(fs: seq<Frame>, nonce: u64, above: u64, width: i32, height: i32) {
    && (forall i :: 0 <= i < |fs| ==> ValidFrame(fs[i], width, height) && fs[i].nonce == nonce && fs[i].sequence > above)
    && (forall i, j :: 0 <= i < j < |fs| ==> fs[i].sequence < fs[j].sequence)
  }

  lemma SentIsValid(l: LauncherState, a: Action, width: i32, height: i32)
    requires l.nonce != 0 && AfterAction(l, a).nonce == l.nonce
    requires a.Touch? && a.session.Some? ==> a.session.value.width == width && a.session.value.height == height
    ensures
      var sent, after := SentBy(l, a), AfterAction(l, a);
      && after.sequence >= l.sequence
      && (sent.Some? ==>
            && ValidFrame(sent.value, width, height) && sent.value.nonce == l.nonce
            && l.sequence < sent.value.sequence == after.sequence)
  {
  }

  /** As long as the nonce stays, what a launcher sends is an ascending stream. */
  lemma {:induction false} StreamAscends(l: LauncherState, actions: seq<Action>, width: i32, height: i32)
    requires l.nonce != 0 && OneSession(l, actions, width, height)
    ensures Ascending(Stream(l, actions), l.nonce, l.sequence, width, height)
    decreases |actions|
  {
    hide SentBy, AfterAction, ValidFrame;
    if actions != [] {
      var after := AfterAction(l, actions[0]);
      SentIsValid(l, actions[0], width, height);
      StreamAscends(after, actions[1..], width, height);
    }
  }

  /** The datagrams are some of the frames, in the order they were sent. */
  ghost predicate Delivered(ds: seq<TouchRouter.Datagram>, fs: seq<Frame>, at: seq<nat>) {
    && |at| == |ds|
    && (forall i :: 0 <= i < |ds| ==> at[i] < |fs| && ds[i].bytes == Encoded(fs[at[i]]))
    && (forall i, j :: 0 <= i < j < |at| ==> at[i] < at[j])
  }

  lemma {:induction false} LastIsBehind(
    nonce: u64, ds: seq<TouchRouter.Datagram>, fs: seq<Frame>, at: seq<nat>, above: u64, width: i32, height: i32)
    requires Ascending(fs, nonce, above, width, height) && Delivered(ds, fs, at)
    ensures
      var sequence := TouchRouter.AfterAll(nonce, ds, width, height).sequence;
      && sequence.nonce == nonce
      && (ds == [] ==> sequence.last == 0)
      && (ds != [] ==> sequence.last <= fs[at[|at| - 1]].sequence)
  {
    hide Encoded, Decode, Fresh, ContactError, AfterContact;
    if ds != [] {
      var n := |ds| - 1;
      LastIsBehind(nonce, ds[..n], fs, at[..n], above, width, height);
      FrameIsBijection(ds[n].bytes, fs[at[n]], width, height);
      assert n > 0 ==> at[..n][n - 1] < at[n];
    }
  }

  /** A launcher is heard: if, under one session, any part of what it sends arrives in order, the
      router decodes every datagram to the frame sent and its sequence guard refuses none; only
      age and the state of the contact can still turn a frame away. */
  lemma LauncherIsHeard(
    l: LauncherState, actions: seq<Action>, ds: seq<TouchRouter.Datagram>, at: seq<nat>,
    width: i32, height: i32, i: nat)
    requires l.nonce != 0 && OneSession(l, actions, width, height)
    requires Delivered(ds, Stream(l, actions), at) && i < |ds|
    ensures
      var s := TouchRouter.AfterAll(l.nonce, ds[..i], width, height);
      var outcome := TouchRouter.OutcomeOf(s, ds[i], width, height);
      var f := Stream(l, actions)[at[i]];
      && Decode(ds[i].bytes, width, height) == Some(f)
      && SequenceError(s.sequence, f) == None
      && (outcome == TouchRouter.Routed(f) || outcome == TouchRouter.Refused(TimestampStale)
          || outcome == TouchRouter.Refused(ContactInvalid))
  {
    hide Encoded, Decode, Fresh, Stream;
    var fs := Stream(l, actions);
    StreamAscends(l, actions, width, height);
    LastIsBehind(l.nonce, ds[..i], fs, at[..i], l.sequence, width, height);
    FrameIsBijection(ds[i].bytes, fs[at[i]], width, height);
    assert i > 0 ==> at[..i][i - 1] < at[i];
  }

  /** As long as the nonce stays, the frames sent are numbered without a gap. */
  lemma {:induction false} StreamIsNumbered(l: LauncherState, actions: seq<Action>, width: i32, height: i32, k: nat)
    requires l.nonce != 0 && OneSession(l, actions, width, height) && k < |Stream(l, actions)|
    ensures Stream(l, actions)[k].sequence == l.sequence + 1 + k
    ensures Stream(l, actions)[k].nonce == l.nonce
    decreases |actions|
  {
    hide ValidFrame, PhaseValue;
    var after, sent := AfterAction(l, actions[0]), SentBy(l, actions[0]);
    if sent.None? || k > 0 {
      StreamIsNumbered(after, actions[1..], width, height, if sent.None? then k else k - 1);
    }
  }

  /** Staying in one session matters. After a relaunch that finds the old nonce in the status file the
      sequence starts over, and the old router, whose last sequence number is `last`, refuses as replayed
      exactly the first `last` frames sent from then on. */
  lemma RelaunchStartsOver(
    l: LauncherState, session: Session, actions: seq<Action>, last: u64, width: i32, height: i32, k: nat)
    requires session.nonce != 0
    requires
      var again := AfterAction(AfterAction(l, Launched), Status(Some(session)));
      && OneSession(again, actions, width, height) && k < |Stream(again, actions)|
    ensures
      var again := AfterAction(AfterAction(l, Launched), Status(Some(session)));
      var f := Stream(again, actions)[k];
      && f.nonce == session.nonce && f.sequence == k + 1
      && (SequenceError(Sequence(session.nonce, last), f) == Some(SequenceReplayed) <==> k < last)
      && (SequenceError(Sequence(session.nonce, last), f) == None <==> k >= last)
  {
    hide Stream, OneSession;
    var again := AfterAction(AfterAction(l, Launched), Status(Some(session)));
    StreamIsNumbered(again, actions, width, height, k);
  }

  /** When a touch is sent, and as what: the session has a nonce, takes touches and shows the certified screen, the
      request is one on it, and there are a clock, a channel and a number left. A session with another nonce than the
      last starts counting from one. */
  lemma SendsExactly(l: LauncherState, session: Option<Session>, r: Request, channel: Channel)
    ensures
      var sent := SentBy(l, Touch(session, r, channel));
      var known := session.Some? && session.value.nonce == l.nonce;
      && (sent.Some? <==>
            && session.Some? && session.value.nonce > 0
            && session.value.ready && session.value.hole && session.value.input
            && session.value.width == l.width && session.value.height == l.height
            && r.phase in {"start", "move", "end", "cancel"} && r.contact < 32
            && 0 <= r.x < l.width && 0 <= r.y < l.height
            && (known ==> l.sequence < 0xffff_ffff_ffff_ffff)
            && channel.clock.Some? && channel.clock.value > 0 && channel.connected)
      && (sent.Some? ==>
            && channel.clock.Some? && session.Some?
            && sent.value == Frame(session.value.nonce, if known then l.sequence + 1 else 1, channel.clock.value,
                 if r.phase == "start" then 1 else if r.phase == "move" then 2 else if r.phase == "end" then 3 else 4,
                 r.contact, r.x, r.y, 0))
  {
  }

  /** Without a certified screen nothing is sent. */
  lemma NoScreenNoTouch(l: LauncherState, session: Option<Session>, r: Request, channel: Channel)
    ensures SentBy(AfterAction(l, Profile(None)), Touch(session, r, channel)) == None
  {
  }
}
