/** Routing touch datagrams: whatever arrives, what is routed is a well-formed touch stream. */
module TouchRouter {
  import opened Bytes
  import opened TouchProtocol

  datatype Datagram = Datagram(bytes: seq<byte>, now: u64)
  datatype RouterState = RouterState(sequence: Sequence, active: bv32)
  datatype Outcome = Routed(frame: Frame) | Refused(error: Error)

  function OutcomeOf(s: RouterState, d: Datagram, width: i32, height: i32): Outcome {
    match Decode(d.bytes, width, height)
    case None => Refused(FrameInvalid)
    case Some(frame) =>
      if !Fresh(frame, d.now) then Refused(TimestampStale)
      else
        match SequenceError(s.sequence, frame)
        case Some(error) => Refused(error)
        case None =>
          match ContactError(s.active, frame)
          case Some(error) => Refused(error)
          case None => Routed(frame)
  }

  function After(s: RouterState, d: Datagram, width: i32, height: i32): RouterState {
    match Decode(d.bytes, width, height)
    case None => s
    case Some(frame) =>
      if !Fresh(frame, d.now) then s
      else if SequenceError(s.sequence, frame).Some? then s
      else RouterState(AfterSequence(s.sequence, frame), AfterContact(s.active, frame))
  }

  /** The router object, driving its two guards. */
  class Router {
    const width: i32
    const height: i32
    const sequence: SequenceGuard
    const contacts: ContactGuard

    function State(): RouterState
      reads this, sequence, contacts
    {
      RouterState(sequence.State(), contacts.active)
    }

    constructor (nonce: u64, width: i32, height: i32)
      ensures this.width == width && this.height == height
      ensures fresh(sequence) && fresh(contacts) && State() == Start(nonce)
    {
      this.width, this.height := width, height;
      sequence := new SequenceGuard(nonce);
      contacts := new ContactGuard();
    }

    method Route(bytes: seq<byte>, now: u64) returns (frame: Frame, outcome: Outcome)
      modifies sequence, contacts
      ensures outcome == OutcomeOf(old(State()), Datagram(bytes, now), width, height)
      ensures State() == After(old(State()), Datagram(bytes, now), width, height)
      ensures frame == SeenFrame(bytes) && (outcome.Routed? ==> outcome.frame == frame)
    {
      hide Decode, SeenFrame, Fresh, Meets, Mask, Set, Clear;
      var decoded, ok := DecodeTouchFrame(bytes, width, height);
      frame := decoded;
      if !ok {
        return frame, Refused(FrameInvalid);
      }
      if !Fresh(decoded, now) {
        return frame, Refused(TimestampStale);
      }
      var error := sequence.Accept(decoded);
      if error.Some? {
        return frame, Refused(error.value);
      }
      error := contacts.Accept(decoded);
      outcome := if error.Some? then Refused(error.value) else Routed(decoded);
    }
  }

  function Start(nonce: u64): RouterState { RouterState(Sequence(nonce, 0), 0) }

  /** The state after a sequence of datagrams, whatever they are. */
  function AfterAll(nonce: u64, ds: seq<Datagram>, width: i32, height: i32): RouterState {
    if ds == [] then Start(nonce)
    else After(AfterAll(nonce, ds[..|ds| - 1], width, height), ds[|ds| - 1], width, height)
  }

  /** The frames routed, in order. */
  function Trace(nonce: u64, ds: seq<Datagram>, width: i32, height: i32): seq<Frame> {
    if ds == [] then []
    else
      var before, d := ds[..|ds| - 1], ds[|ds| - 1];
      Trace(nonce, before, width, height) +
        match OutcomeOf(AfterAll(nonce, before, width, height), d, width, height)
        case Routed(frame) => [frame]
        case Refused(_) => []
  }

  /** The phases of the frames of one contact. */
  function Phases(t: seq<Frame>, contact: nat): seq<u32> {
    if t == [] then []
    else
      Phases(t[..|t| - 1], contact) + if t[|t| - 1].contact == contact then [t[|t| - 1].phase] else []
  }

  /** A stroke that is going on: a start, then moves. */
  predicate Begun(q: seq<u32>) {
    q != [] && q[0] == START && forall i :: 0 < i < |q| ==> q[i] == MOVE
  }

  /** A finished stroke: a start, moves, and an end or a cancel. */
  predicate Finished(q: seq<u32>) {
    |q| >= 2 && Begun(q[..|q| - 1]) && (q[|q| - 1] == END || q[|q| - 1] == CANCEL)
  }

  predicate FinishedStrokes(p: seq<u32>) {
    p == [] || exists k :: 0 <= k < |p| && FinishedStrokes(p[..k]) && Finished(p[k..])
  }

  /** Finished strokes, followed by one that is going on if the contact is down. */
  predicate Strokes(p: seq<u32>, down: bool) {
    exists k :: 0 <= k <= |p| && FinishedStrokes(p[..k]) && if down then Begun(p[k..]) else p[k..] == []
  }

  lemma NoStrokes()
    ensures Strokes([], false)
  {
    var p: seq<u32> := [];
    assert p[..0] == [] && p[0..] == [];
  }

  lemma StrokeStarts(p: seq<u32>)
    requires Strokes(p, false)
    ensures Strokes(p + [START], true)
  {
    var k :| 0 <= k <= |p| && FinishedStrokes(p[..k]) && p[k..] == [];
    assert (p + [START])[..k] == p[..k] && (p + [START])[k..] == [START];
  }

  lemma StrokeMoves(p: seq<u32>)
    requires Strokes(p, true)
    ensures Strokes(p + [MOVE], true)
  {
    var k :| 0 <= k <= |p| && FinishedStrokes(p[..k]) && Begun(p[k..]);
    assert (p + [MOVE])[..k] == p[..k] && (p + [MOVE])[k..] == p[k..] + [MOVE];
  }

  lemma StrokeEnds(p: seq<u32>, phase: u32)
    requires Strokes(p, true) && (phase == END || phase == CANCEL)
    ensures Strokes(p + [phase], false)
  {
    var k :| 0 <= k <= |p| && FinishedStrokes(p[..k]) && Begun(p[k..]);
    var all := p + [phase];
    assert all[..k] == p[..k] && all[k..] == p[k..] + [phase];
    assert all[k..][..|p| - k] == p[k..];
    assert FinishedStrokes(all);
    assert all[..|all|] == all && all[|all|..] == [];
  }

  /** What the router keeps: the frames routed so far are newer one than the other, none is newer
      than the last sequence number accepted, and the bit mask holds exactly the contacts that
      are down. */
  ghost predicate Keeps(nonce: u64, t: seq<Frame>, s: RouterState, width: i32, height: i32) {
    && s.sequence.nonce == nonce
    && (forall i :: 0 <= i < |t| ==>
          t[i].nonce == nonce && ValidFrame(t[i], width, height) && t[i].sequence <= s.sequence.last)
    && (forall i, j :: 0 <= i < j < |t| ==> t[i].sequence < t[j].sequence)
    && (forall c :: 0 <= c <= MAX_CONTACT ==> Strokes(Phases(t, c), Active(s.active, c)))
  }

  lemma ContactStep(t: seq<Frame>, active: bv32, f: Frame, c: nat)
    requires Strokes(Phases(t, c), Active(active, c)) && c <= MAX_CONTACT && ContactError(active, f) == None
    ensures Strokes(Phases(t + [f], c), Active(AfterContact(active, f), c))
  {
    hide Strokes, Mask, Meets, Set, Clear;
    BitsAreIndependent(active, f.contact, c);
    assert (t + [f])[..|t|] == t;
    if f.contact == c {
      if f.phase == START {
        StrokeStarts(Phases(t, c));
      } else if f.phase == MOVE {
        StrokeMoves(Phases(t, c));
      } else {
        StrokeEnds(Phases(t, c), f.phase);
      }
    } else {
      assert Phases(t + [f], c) == Phases(t, c);
    }
  }

  lemma RouteStep(nonce: u64, t: seq<Frame>, s: RouterState, d: Datagram, width: i32, height: i32)
    requires Keeps(nonce, t, s, width, height)
    ensures
      var outcome, after := OutcomeOf(s, d, width, height), After(s, d, width, height);
      Keeps(nonce, if outcome.Routed? then t + [outcome.frame] else t, after, width, height)
  {
    hide Strokes, Mask, Meets, Set, Clear, LayoutOk, FieldsOf, Phases;
    var outcome := OutcomeOf(s, d, width, height);
    if outcome.Routed? {
      forall c | 0 <= c <= MAX_CONTACT
        ensures Strokes(Phases(t + [outcome.frame], c), Active(After(s, d, width, height).active, c))
      {
        ContactStep(t, s.active, outcome.frame, c);
      }
    }
  }

  /** The touch stream: for every sequence of datagrams, including lost, repeated, reordered and
      arbitrary ones, the routed frames carry the session nonce and strictly increasing sequence
      numbers, each contact's frames are a start, moves, and an end or cancel over and over, and
      the bit mask holds exactly the contacts that are down. */
  lemma {:induction false} RoutedStreamIsWellFormed(nonce: u64, ds: seq<Datagram>, width: i32, height: i32)
    ensures Keeps(nonce, Trace(nonce, ds, width, height), AfterAll(nonce, ds, width, height), width, height)
  {
    hide Keeps, After, OutcomeOf;
    if ds == [] {
      NothingRouted(nonce, width, height);
    } else {
      var before := ds[..|ds| - 1];
      RoutedStreamIsWellFormed(nonce, before, width, height);
      RouteStep(nonce, Trace(nonce, before, width, height), AfterAll(nonce, before, width, height), ds[|ds| - 1],
        width, height);
      NothingAppended(Trace(nonce, before, width, height));
    }
  }

  lemma NothingAppended(t: seq<Frame>)
    ensures t + [] == t
  {
  }

  lemma NothingRouted(nonce: u64, width: i32, height: i32)
    ensures Keeps(nonce, [], Start(nonce), width, height)
  {
    hide Strokes, Mask;
    forall c | 0 <= c <= MAX_CONTACT
      ensures Strokes(Phases([], c), Active(0, c))
    {
      NoStrokes();
      NothingActive(Mask(c));
    }
  }

  lemma NothingActive(m: bv32)
    ensures !Meets(0, m)
  {
  }

  /** What is routed was fresh when it arrived. */
  lemma RoutedIsFresh(s: RouterState, d: Datagram, width: i32, height: i32)
    requires OutcomeOf(s, d, width, height).Routed?
    ensures
      var f := OutcomeOf(s, d, width, height).frame;
      && d.bytes == Encoded(f)
      && f.time <= d.now + MAXIMUM_FUTURE && d.now <= f.time + MAXIMUM_AGE
  {
    hide Encoded, ContactError, SequenceError;
    FrameIsBijection(d.bytes, OutcomeOf(s, d, width, height).frame, width, height);
  }
}
