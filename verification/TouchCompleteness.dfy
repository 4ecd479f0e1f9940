/** Routing is complete: which datagrams are routed, and why the others are not. */
module TouchCompleteness {
  import opened Bytes
  import opened TouchProtocol
  import opened TouchRouter
  import opened TouchLauncher

  /** The frames that have got past the sequence guard, in order; the contact guard may still refuse them. */
  function Heard(nonce: u64, ds: seq<Datagram>, width: i32, height: i32): seq<Frame> {
    if ds == [] then []
    else
      var before, d := ds[..|ds| - 1], ds[|ds| - 1];
      Heard(nonce, before, width, height) +
        match OutcomeOf(AfterAll(nonce, before, width, height), d, width, height)
        case Routed(frame) => [frame]
        case Refused(ContactInvalid) => [SeenFrame(d.bytes)]
        case Refused(_) => []
  }

  /** The datagram is the encoding of a frame that fits the screen. */
  ghost predicate Carries(d: Datagram, f: Frame, width: i32, height: i32) {
    && d.bytes == Encoded(f)
    && f.nonce >= 1 && f.sequence >= 1 && f.time >= 1 && (f.phase == 1 || f.phase == 2 || f.phase == 3 || f.phase == 4)
    && f.contact < 32 && 0 <= f.x < width && 0 <= f.y < height && f.flags == 0
  }

  /** At most two seconds old, at most a tenth of a second ahead, in microseconds, and by a clock that runs. */
  predicate Timely(f: Frame, now: u64) {
    now >= 1 && f.time >= 1 && now - f.time <= 2_000_000 && f.time - now <= 100_000
  }

  /** The frame is of the session, and newer than every one that has been heard. */
  ghost predicate News(f: Frame, nonce: u64, heard: seq<Frame>) {
    nonce >= 1 && f.nonce == nonce && forall i :: 0 <= i < |heard| ==> heard[i].sequence < f.sequence
  }

  /** Strokes, the last of which may still go on. */
  ghost predicate InStrokes(p: seq<u32>) { Strokes(p, true) || Strokes(p, false) }

  lemma DecodedIsCarried(d: Datagram, width: i32, height: i32)
    ensures Decode(d.bytes, width, height).Some? ==> Carries(d, Decode(d.bytes, width, height).value, width, height)
    ensures forall f :: Carries(d, f, width, height) ==> Decode(d.bytes, width, height) == Some(f)
  {
    hide Decode, Encoded;
    if Decode(d.bytes, width, height).Some? {
      FrameIsBijection(d.bytes, Decode(d.bytes, width, height).value, width, height);
    }
    forall f | Carries(d, f, width, height)
      ensures Decode(d.bytes, width, height) == Some(f)
    {
      FrameIsBijection(d.bytes, f, width, height);
    }
  }

  /** The sequence guard remembers the newest frame heard. */
  lemma {:induction false} LastIsNewest(nonce: u64, ds: seq<Datagram>, width: i32, height: i32)
    ensures
      var heard, s := Heard(nonce, ds, width, height), AfterAll(nonce, ds, width, height).sequence;
      && s.nonce == nonce
      && (forall i :: 0 <= i < |heard| ==> heard[i].sequence <= s.last)
      && (if heard == [] then s.last == 0 else heard[|heard| - 1].sequence == s.last)
  {
    hide Decode, Fresh, Active, AfterContact;
    if ds != [] {
      var before, d := ds[..|ds| - 1], ds[|ds| - 1];
      LastIsNewest(nonce, before, width, height);
      SeenIsDecoded(d.bytes, width, height);
    }
  }

  lemma SeenIsDecoded(b: seq<byte>, width: i32, height: i32)
    ensures Decode(b, width, height).Some? ==> SeenFrame(b) == Decode(b, width, height).value
  {
  }

  /** A frame is refused for its sequence exactly when it is no news. */
  lemma NewsIsNew(nonce: u64, ds: seq<Datagram>, f: Frame, width: i32, height: i32)
    requires f.sequence >= 1
    ensures
      var error := SequenceError(AfterAll(nonce, ds, width, height).sequence, f);
      && (error.None? <==> News(f, nonce, Heard(nonce, ds, width, height)))
      && (error == Some(SessionMismatch) <==> nonce == 0 || f.nonce != nonce)
      && (error.Some? ==> error.value == SessionMismatch || error.value == SequenceReplayed)
  {
    hide AfterAll, Heard;
    LastIsNewest(nonce, ds, width, height);
  }

  lemma {:induction false} FinishedEnds(p: seq<u32>)
    requires FinishedStrokes(p) && p != []
    ensures p[|p| - 1] == END || p[|p| - 1] == CANCEL
  {
    var k :| 0 <= k < |p| && FinishedStrokes(p[..k]) && Finished(p[k..]);
    assert p[k..][|p| - k - 1] == p[|p| - 1];
  }

  /** How strokes end tells whether one is going on. */
  lemma StrokesEnd(p: seq<u32>, down: bool)
    requires Strokes(p, down)
    ensures down ==> p != [] && (p[|p| - 1] == START || p[|p| - 1] == MOVE)
    ensures !down ==> p == [] || p[|p| - 1] == END || p[|p| - 1] == CANCEL
  {
    var k :| 0 <= k <= |p| && FinishedStrokes(p[..k]) && if down then Begun(p[k..]) else p[k..] == [];
    if down {
      assert p[k..][|p| - k - 1] == p[|p| - 1];
    } else {
      assert p[..k] == p;
      if p != [] {
        FinishedEnds(p);
      }
    }
  }

  lemma BegunContinues(q: seq<u32>, phase: u32)
    requires Begun(q + [phase])
    ensures if phase == START then q == [] else phase == MOVE && Begun(q)
  {
    var all := q + [phase];
    assert all[|q|] == phase;
    if q != [] {
      assert all[0] == q[0];
      assert forall i :: 0 < i < |q| ==> q[i] == all[i];
    }
  }

  lemma OpenPhase(p: seq<u32>, phase: u32)
    requires Strokes(p + [phase], true)
    ensures if phase == START then Strokes(p, false) else phase == MOVE && Strokes(p, true)
  {
    hide Begun;
    var all := p + [phase];
    var k :| 0 <= k <= |all| && FinishedStrokes(all[..k]) && Begun(all[k..]);
    BegunIsSome(all[k..]);
    assert all[..k] == p[..k] && all[k..] == p[k..] + [phase];
    BegunContinues(p[k..], phase);
  }

  lemma BegunIsSome(q: seq<u32>)
    requires Begun(q)
    ensures q != []
  {
  }

  lemma ClosedPhase(p: seq<u32>, phase: u32)
    requires Strokes(p + [phase], false)
    ensures (phase == END || phase == CANCEL) && Strokes(p, true)
  {
    hide Begun;
    var all := p + [phase];
    var k :| 0 <= k <= |all| && FinishedStrokes(all[..k]) && all[k..] == [];
    assert all[..k] == all;
    var j :| 0 <= j < |all| && FinishedStrokes(all[..j]) && Finished(all[j..]);
    assert all[..j] == p[..j] && all[j..] == p[j..] + [phase] && all[j..][..|all[j..]| - 1] == p[j..];
  }

  /** What a phase may follow. */
  lemma LastPhase(p: seq<u32>, phase: u32)
    requires InStrokes(p + [phase])
    ensures phase == START ==> Strokes(p, false)
    ensures phase != START ==> Strokes(p, true) && (phase == MOVE || phase == END || phase == CANCEL)
  {
    hide Strokes;
    if Strokes(p + [phase], true) {
      OpenPhase(p, phase);
    } else {
      ClosedPhase(p, phase);
    }
  }

  /** The contact guard accepts a frame exactly when the contact's phases stay strokes with it. */
  lemma ContactAccepts(t: seq<Frame>, active: bv32, f: Frame)
    requires f.contact < 32 && 1 <= f.phase <= 4 && Strokes(Phases(t, f.contact), Active(active, f.contact))
    ensures ContactError(active, f).None? <==> InStrokes(Phases(t + [f], f.contact))
    ensures ContactError(active, f).Some? ==> ContactError(active, f).value == ContactInvalid
  {
    hide Strokes, Mask, Meets;
    var p, down := Phases(t, f.contact), Active(active, f.contact);
    assert (t + [f])[..|t|] == t && Phases(t + [f], f.contact) == p + [f.phase];
    if ContactError(active, f).None? {
      if f.phase == START {
        StrokeStarts(p);
      } else if f.phase == MOVE {
        StrokeMoves(p);
      } else {
        StrokeEnds(p, f.phase);
      }
    } else if InStrokes(p + [f.phase]) {
      LastPhase(p, f.phase);
      StrokesEnd(p, down);
      StrokesEnd(p, !down);
    }
  }

  /** Routing is complete. After any datagrams whatever, a datagram is routed as a frame if and only if it is the
      encoding of that frame, which fits the screen, is timely, is news of the session, and continues the strokes of
      its contact. Otherwise the first of these that fails is the reason given. */
  lemma RoutedExactly(nonce: u64, ds: seq<Datagram>, d: Datagram, f: Frame, width: i32, height: i32)
    ensures
      var outcome := OutcomeOf(AfterAll(nonce, ds, width, height), d, width, height);
      var heard, routed := Heard(nonce, ds, width, height), Trace(nonce, ds, width, height);
      && (outcome == Routed(f) <==>
            && Carries(d, f, width, height) && Timely(f, d.now) && News(f, nonce, heard)
            && InStrokes(Phases(routed + [f], f.contact)))
      && (outcome == Refused(FrameInvalid) <==> !exists g :: Carries(d, g, width, height))
      && (Carries(d, f, width, height) ==>
            && (outcome == Refused(TimestampStale) <==> !Timely(f, d.now))
            && (outcome == Refused(SessionMismatch) <==> Timely(f, d.now) && (nonce == 0 || f.nonce != nonce))
            && (outcome == Refused(SequenceReplayed) <==>
                  Timely(f, d.now) && nonce != 0 && f.nonce == nonce && !News(f, nonce, heard))
            && (outcome == Refused(ContactInvalid) <==>
                  && Timely(f, d.now) && News(f, nonce, heard)
                  && !InStrokes(Phases(routed + [f], f.contact))))
  {
    hide AfterAll, Heard, Trace, Decode, Encoded, Phases, Strokes, Mask, Meets;
    var s := AfterAll(nonce, ds, width, height);
    DecodedIsCarried(d, width, height);
    RoutedStreamIsWellFormed(nonce, ds, width, height);
    if Decode(d.bytes, width, height).Some? {
      var g := Decode(d.bytes, width, height).value;
      TimelyIsFresh(g, d.now);
      NewsIsNew(nonce, ds, g, width, height);
      ContactAccepts(Trace(nonce, ds, width, height), s.active, g);
      hide SequenceError, ContactError, InStrokes, News, Fresh, Timely;
    }
  }

  lemma TimelyIsFresh(f: Frame, now: u64)
    ensures Fresh(f, now) <==> Timely(f, now)
  {
  }

  /** All datagrams carry the frames of a stream, in time, and the frames are strokes of one session. */
  ghost predicate Whole(nonce: u64, fs: seq<Frame>, ds: seq<Datagram>, width: i32, height: i32) {
    && |ds| == |fs|
    && (forall i :: 0 <= i < |fs| ==>
          Carries(ds[i], fs[i], width, height) && Timely(fs[i], ds[i].now) && fs[i].nonce == nonce)
    && (forall i, j :: 0 <= i < j < |fs| ==> fs[i].sequence < fs[j].sequence)
    && forall c: nat :: InStrokes(Phases(fs, c))
  }

  lemma WholePrefix(nonce: u64, fs: seq<Frame>, ds: seq<Datagram>, width: i32, height: i32)
    requires Whole(nonce, fs, ds, width, height) && fs != []
    ensures Whole(nonce, fs[..|fs| - 1], ds[..|ds| - 1], width, height)
  {
    hide Carries, Strokes;
    var f, before := fs[|fs| - 1], fs[..|fs| - 1];
    forall c: nat
      ensures InStrokes(Phases(before, c))
    {
      assert InStrokes(Phases(fs, c));
      if f.contact == c {
        LastPhase(Phases(before, c), f.phase);
      } else {
        assert Phases(fs, c) == Phases(before, c) + [] == Phases(before, c);
      }
    }
  }

  /** A stream that arrives whole, in time and in strokes is routed whole. */
  lemma {:induction false} WholeIsRouted(nonce: u64, fs: seq<Frame>, ds: seq<Datagram>, width: i32, height: i32)
    requires nonce != 0 && Whole(nonce, fs, ds, width, height)
    ensures Trace(nonce, ds, width, height) == fs && Heard(nonce, ds, width, height) == fs
  {
    hide OutcomeOf, Phases, Carries, Timely, InStrokes, AfterAll;
    if ds != [] {
      var before, f := fs[..|fs| - 1], fs[|fs| - 1];
      WholePrefix(nonce, fs, ds, width, height);
      WholeIsRouted(nonce, before, ds[..|ds| - 1], width, height);
      assert before + [f] == fs;
      RoutedExactly(nonce, ds[..|ds| - 1], ds[|ds| - 1], f, width, height);
    }
  }

  /** In particular a launcher's: what it sends under one session, if it arrives whole and in time, and its touches are
      strokes, is routed whole, frame by frame. */
  lemma LauncherIsRouted(
    l: LauncherState, actions: seq<Action>, ds: seq<Datagram>, width: i32, height: i32)
    requires l.nonce != 0 && OneSession(l, actions, width, height)
    requires |ds| == |Stream(l, actions)|
    requires forall i :: 0 <= i < |ds| ==>
      ds[i].bytes == Encoded(Stream(l, actions)[i]) && Timely(Stream(l, actions)[i], ds[i].now)
    requires forall c: nat :: InStrokes(Phases(Stream(l, actions), c))
    ensures Trace(l.nonce, ds, width, height) == Stream(l, actions)
  {
    hide Encoded, Stream, Phases, InStrokes, OneSession, Timely;
    StreamAscends(l, actions, width, height);
    WholeIsRouted(l.nonce, Stream(l, actions), ds, width, height);
  }
}
