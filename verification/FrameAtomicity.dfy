/** Whatever the interleaving, every stream carries whole frames in the order of its lock. */
module FrameAtomicity {
  import opened FrameReader
  import opened Peers
  import opened RelayFrames
  import opened RelaySystem

  /** The stream holds the frames of the log, except the part of the last one its writer still owes. */
  ghost predicate StreamOk(s: State, to: nat)
    requires Shape(s) && to < |s.ips|
  {
    var log := s.logs[to];
    match s.locks[to]
    case None => s.outbox[to] == EncodeAll(EncodePeer, log)
    case Some(t) =>
      && t < |s.ips| && s.pcs[t].Writing? && s.pcs[t].to == to
      && log != [] && log[|log| - 1] == s.pcs[t].frame
      && s.outbox[to] == EncodeAll(EncodePeer, log[..|log| - 1]) + EncodePeer(s.pcs[t].frame)[..s.pcs[t].sent]
  }

  ghost predicate Atomic(s: State)
    requires Shape(s)
  {
    && (forall to | 0 <= to < |s.ips| :: StreamOk(s, to))
    && (forall t | 0 <= t < |s.ips| && s.pcs[t].Writing? :: s.locks[s.pcs[t].to] == Some(t))
  }

  predicate TouchesStreams(a: Action) {
    a.Lock? || a.Write? || a.Release?
  }

  /** All other steps leave streams, locks and logs alone, and move no task into or out of writing. */
  lemma QuietStep(s: State, a: Action, unwraps: bool)
    requires Shape(s) && Can(s, a) && !TouchesStreams(a)
    ensures var t := Do(s, a, unwraps);
      && t.outbox == s.outbox && t.locks == s.locks && t.logs == s.logs && t.ips == s.ips
      && |t.pcs| == |s.pcs| && t.pcs == s.pcs[a.c := t.pcs[a.c]]
      && (s.pcs[a.c].Writing? <==> t.pcs[a.c].Writing?)
      && (t.pcs[a.c].Writing? ==> t.pcs[a.c] == s.pcs[a.c])
  {
    hide ParseRelay, EncodePeer;
  }

  lemma {:induction false} QuietAtomic(s: State, a: Action, unwraps: bool)
    requires Shape(s) && Can(s, a) && !TouchesStreams(a) && Atomic(s)
    requires Shape(Do(s, a, unwraps))
    ensures Atomic(Do(s, a, unwraps))
  {
    hide Can, Do, EncodePeer, EncodeAll, StreamOk;
    QuietStep(s, a, unwraps);
    var t := Do(s, a, unwraps);
    forall to | 0 <= to < |s.ips|
      ensures StreamOk(t, to)
    {
      SameStream(s, t, to);
    }
  }

  /** A stream's invariant only looks at the stream and at its writer. */
  lemma SameStream(s: State, t: State, to: nat)
    requires Shape(s) && Shape(t) && |t.ips| == |s.ips| && to < |s.ips| && StreamOk(s, to)
    requires t.outbox[to] == s.outbox[to] && t.locks[to] == s.locks[to] && t.logs[to] == s.logs[to]
    requires forall w | 0 <= w < |s.ips| && s.locks[to] == Some(w) && s.pcs[w].Writing? :: t.pcs[w] == s.pcs[w]
    ensures StreamOk(t, to)
  {
    hide EncodePeer, EncodeAll;
  }

  lemma WriterAtomic(s: State, a: Action, unwraps: bool)
    requires Shape(s) && Can(s, a) && TouchesStreams(a) && Atomic(s)
    requires Shape(Do(s, a, unwraps))
    ensures Atomic(Do(s, a, unwraps))
  {
    hide EncodePeer, EncodeAll, StreamOk;
    var t := Do(s, a, unwraps);
    var pc := s.pcs[a.c];
    WriterStream(s, a, unwraps);
    forall to | 0 <= to < |s.ips|
      ensures StreamOk(t, to)
    {
      if to != pc.to {
        assert StreamOk(s, to);
        if s.locks[to].Some? {
          WriterElsewhere(s, to);
        }
        SameStream(s, t, to);
      }
    }
  }

  lemma WriterElsewhere(s: State, to: nat)
    requires Shape(s) && to < |s.ips| && StreamOk(s, to) && s.locks[to].Some?
    ensures s.locks[to].value < |s.ips| && s.pcs[s.locks[to].value].Writing? && s.pcs[s.locks[to].value].to == to
  {}

  /** The stream that is locked, written to or released stays in order. */
  lemma WriterStream(s: State, a: Action, unwraps: bool)
    requires Shape(s) && Can(s, a) && TouchesStreams(a) && Atomic(s)
    requires Shape(Do(s, a, unwraps))
    ensures StreamOk(Do(s, a, unwraps), s.pcs[a.c].to)
  {
    hide EncodePeer, StreamOk;
    assert StreamOk(s, s.pcs[a.c].to);
    match a {
      case Lock(_) => LockStream(s, a, unwraps);
      case Write(_, _) => WriteStream(s, a, unwraps);
      case Release(_) => ReleaseStream(s, a, unwraps);
    }
  }

  lemma LockStream(s: State, a: Action, unwraps: bool)
    requires Shape(s) && a.Lock? && Can(s, a) && StreamOk(s, s.pcs[a.c].to)
    requires Shape(Do(s, a, unwraps))
    ensures StreamOk(Do(s, a, unwraps), s.pcs[a.c].to)
  {
    hide EncodePeer, EncodeAll;
    var pc, t := s.pcs[a.c], Do(s, a, unwraps);
    var log := s.logs[pc.to];
    assert t.logs[pc.to][..|log|] == log;
    assert EncodeAll(EncodePeer, log) + EncodePeer(pc.frame)[..0] == EncodeAll(EncodePeer, log);
  }

  lemma WriteStream(s: State, a: Action, unwraps: bool)
    requires Shape(s) && a.Write? && Can(s, a) && StreamOk(s, s.pcs[a.c].to) && s.locks[s.pcs[a.c].to] == Some(a.c)
    requires Shape(Do(s, a, unwraps))
    ensures StreamOk(Do(s, a, unwraps), s.pcs[a.c].to)
  {
    hide EncodePeer, EncodeAll;
    var pc := s.pcs[a.c];
    var bytes, log := EncodePeer(pc.frame), s.logs[pc.to];
    assert bytes[..pc.sent] + bytes[pc.sent..pc.sent + a.n] == bytes[..pc.sent + a.n];
    assert Do(s, a, unwraps).outbox[pc.to] == s.outbox[pc.to] + bytes[pc.sent..pc.sent + a.n];
  }

  lemma ReleaseStream(s: State, a: Action, unwraps: bool)
    requires Shape(s) && a.Release? && Can(s, a) && StreamOk(s, s.pcs[a.c].to) && s.locks[s.pcs[a.c].to] == Some(a.c)
    requires Shape(Do(s, a, unwraps))
    ensures StreamOk(Do(s, a, unwraps), s.pcs[a.c].to)
  {
    hide EncodePeer;
    var pc := s.pcs[a.c];
    var log := s.logs[pc.to];
    assert EncodePeer(pc.frame)[..pc.sent] == EncodePeer(pc.frame);
    assert log == log[..|log| - 1] + [pc.frame];
    assert EncodeAll(EncodePeer, log) == EncodeAll(EncodePeer, log[..|log| - 1]) + EncodePeer(pc.frame);
    hide EncodeAll;
  }

  lemma StepAtomic(s: State, a: Action, unwraps: bool)
    requires Shape(s) && Can(s, a) && Atomic(s)
    requires Shape(Do(s, a, unwraps))
    ensures Atomic(Do(s, a, unwraps))
  {
    hide Atomic, Can, Do;
    if TouchesStreams(a) {
      WriterAtomic(s, a, unwraps);
    } else {
      QuietAtomic(s, a, unwraps);
    }
  }

  /** On every run, at every moment, every stream is in order. */
  lemma {:induction false} AlwaysAtomic(states: seq<State>, actions: seq<Action>, unwraps: bool, i: nat)
    requires Execution(states, actions, unwraps) && i < |states|
    ensures Shape(states[i]) && states[i].ips == states[0].ips && Atomic(states[i])
  {
    hide Atomic, Can, Do, Shape;
    if i == 0 {
      InitialShape(states[0]);
      InitialAtomic(states[0]);
    } else {
      AlwaysAtomic(states, actions, unwraps, i - 1);
      StepShape(states[i - 1], actions[i - 1], unwraps);
      StepAtomic(states[i - 1], actions[i - 1], unwraps);
    }
  }

  lemma InitialAtomic(s: State)
    requires Initial(s) && Shape(s)
    ensures Atomic(s)
  {
    assert EncodeAll(EncodePeer, []) == [];
  }

  // ---------------------------------------------------------------- addresses of four octets

  predicate AllV4(ips: seq<IpAddr>) {
    forall c | 0 <= c < |ips| :: ips[c].V4?
  }

  ghost predicate NoneTooLong(s: State) {
    forall c | 0 <= c < |s.logs| :: forall f | f in s.logs[c] :: !TooLong(f)
  }

  lemma StepNoneTooLong(s: State, a: Action, unwraps: bool)
    requires Shape(s) && Can(s, a) && NoneTooLong(s) && AllV4(s.ips)
    ensures NoneTooLong(Do(s, a, unwraps))
  {
    hide Do, EncodePeer, ParseRelay;
    LogsGrow(s, a, unwraps);
    if a.Lock? {
      assert PcShape(s.pcs[a.c], a.c, |s.ips|, s.ips[a.c]);
    }
  }

  /** If every connection has an IPv4 address, no run ever writes a command that its reader would shorten. */
  lemma {:induction false} NeverTooLong(states: seq<State>, actions: seq<Action>, unwraps: bool, i: nat)
    requires Execution(states, actions, unwraps) && i < |states| && AllV4(states[0].ips)
    ensures NoneTooLong(states[i])
  {
    hide Can, Do, NoneTooLong, Shape;
    if i == 0 {
      assert NoneTooLong(states[0]) by {
        NothingLogged(states[0]);
      }
    } else {
      NeverTooLong(states, actions, unwraps, i - 1);
      AlwaysAtomic(states, actions, unwraps, i - 1);
      StepNoneTooLong(states[i - 1], actions[i - 1], unwraps);
    }
  }

  lemma NothingLogged(s: State)
    requires Initial(s)
    ensures NoneTooLong(s)
  {}

  // ---------------------------------------------------------------- what the peers read

  /**
   On every run between IPv4 addresses, what the peer of connection c can make of its
   stream is at any moment exactly the frames written, in lock order; while octets of the
   last one are still to come, all frames before it, and then a cut one if any are out.
   */
  lemma PeersReadLogs(states: seq<State>, actions: seq<Action>, unwraps: bool, i: nat, c: nat)
    requires Execution(states, actions, unwraps) && i < |states| && AllV4(states[0].ips)
    requires c < |states[i].ips|
    ensures Shape(states[i])
    ensures var s := states[i]; var log := s.logs[c];
      match s.locks[c]
      case None => ParseAll(ParsePeer, s.outbox[c]) == (Each(NormalFrame, log), Clean)
      case Some(t) =>
        && t < |s.ips| && s.pcs[t].Writing? && log != []
        && (s.pcs[t].sent < |EncodePeer(s.pcs[t].frame)| ==>
              ParseAll(ParsePeer, s.outbox[c]) ==
              (Each(NormalFrame, log[..|log| - 1]), if s.pcs[t].sent == 0 then Clean else Broken))
        && (s.pcs[t].sent == |EncodePeer(s.pcs[t].frame)| ==>
              ParseAll(ParsePeer, s.outbox[c]) == (Each(NormalFrame, log), Clean))
        && s.pcs[t].sent <= |EncodePeer(s.pcs[t].frame)|
  {
    hide Atomic, Can, Do, EncodePeer, ParsePeer, TooLong;
    AlwaysAtomic(states, actions, unwraps, i);
    NeverTooLong(states, actions, unwraps, i);
    match states[i].locks[c] {
      case None => PeerReadsLog(states[i], c);
      case Some(t) => PeerReadsPrefix(states[i], c, t);
    }
  }

  /**
   What the peer of connection c can make of its stream when nobody is writing: exactly
   the frames written, in lock order, unless a command names an IPv6 address.
   */
  lemma PeerReadsLog(s: State, c: nat)
    requires Shape(s) && Atomic(s) && c < |s.ips| && s.locks[c].None?
    ensures ParseAll(ParsePeer, s.outbox[c]) == (Each(NormalFrame, s.logs[c]), Clean)
            <==> forall f | f in s.logs[c] :: !TooLong(f)
  {
    hide EncodePeer, ParsePeer, TooLong;
    assert StreamOk(s, c);
    PeerFramesComeBackIff(s.logs[c]);
  }

  /**
   And while task t is writing: all earlier frames, then an incomplete one if anything, and
   from its last octet on, which is before the lock is released, that frame too.
   */
  lemma PeerReadsPrefix(s: State, c: nat, t: nat)
    requires Shape(s) && Atomic(s) && c < |s.ips| && s.locks[c] == Some(t)
    requires forall f | f in s.logs[c] :: !TooLong(f)
    ensures t < |s.ips| && s.pcs[t].Writing? && s.logs[c] != []
    ensures s.pcs[t].sent < |EncodePeer(s.pcs[t].frame)| ==>
              ParseAll(ParsePeer, s.outbox[c]) ==
              (Each(NormalFrame, s.logs[c][..|s.logs[c]| - 1]), if s.pcs[t].sent == 0 then Clean else Broken)
    ensures s.pcs[t].sent == |EncodePeer(s.pcs[t].frame)| ==>
              ParseAll(ParsePeer, s.outbox[c]) == (Each(NormalFrame, s.logs[c]), Clean)
    ensures s.pcs[t].sent <= |EncodePeer(s.pcs[t].frame)|
  {
    hide EncodePeer, ParsePeer, TooLong;
    assert StreamOk(s, c);
    assert PcShape(s.pcs[t], t, |s.ips|, s.ips[t]);
    var log, bytes := s.logs[c], EncodePeer(s.pcs[t].frame);
    assert log[|log| - 1] in log;
    if s.pcs[t].sent < |bytes| {
      PeerFramesComeBack(log[..|log| - 1], s.pcs[t].frame, s.pcs[t].sent);
    } else {
      assert bytes[..s.pcs[t].sent] == bytes;
      assert EncodeAll(EncodePeer, log) == s.outbox[c];
      PeerFramesComeBackIff(log);
    }
  }
}
