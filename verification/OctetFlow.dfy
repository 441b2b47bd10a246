/** On every run, every octet is accounted for, and every recorded event stands for octets on a stream. */
module OctetFlow {
  import opened Bytes
  import opened FrameAtomicity
  import opened FrameReader
  import opened Peers
  import opened ProbeHistory
  import opened RelayFrames
  import opened RelaySystem
  import opened RequestReply

  /** What the peer of connection c has sent. */
  function Delivered(actions: seq<Action>, c: nat): seq<byte> {
    if actions == [] then []
    else
      var a := actions[|actions| - 1];
      Delivered(actions[..|actions| - 1], c) + if a.Deliver? && a.c == c then a.bytes else []
  }

  /** What a step takes from the stream of connection c, whichever task takes it. */
  function TakenBy(s: State, a: Action, c: nat): seq<byte>
    requires Shape(s) && Can(s, a) && c < |s.ips|
  {
    if (a.Read? && a.c == c) || (a.ReadAck? && s.pcs[a.c].entry.conn == c) then s.inbox[c][..a.n] else []
  }

  /** ... for the connection's own task, looking for requests. */
  function ReadBy(s: State, a: Action, c: nat): seq<byte>
    requires Shape(s) && Can(s, a) && c < |s.ips|
  {
    if a.Read? && a.c == c then s.inbox[c][..a.n] else []
  }

  /** The same over the first i steps of a run. */
  ghost function Taken(states: seq<State>, actions: seq<Action>, unwraps: bool, i: nat, c: nat): seq<byte>
    requires Execution(states, actions, unwraps) && i <= |actions|
  {
    if i == 0 then []
    else
      Taken(states, actions, unwraps, i - 1, c)
      + if c < |states[i - 1].ips| then TakenBy(states[i - 1], actions[i - 1], c) else []
  }

  ghost function Read(states: seq<State>, actions: seq<Action>, unwraps: bool, i: nat, c: nat): seq<byte>
    requires Execution(states, actions, unwraps) && i <= |actions|
  {
    if i == 0 then []
    else
      Read(states, actions, unwraps, i - 1, c)
      + if c < |states[i - 1].ips| then ReadBy(states[i - 1], actions[i - 1], c) else []
  }

  /** What task c has read in answer to the SYNC it wrote, while it expects an acknowledgement. */
  ghost function AckRead(states: seq<State>, actions: seq<Action>, unwraps: bool, i: nat, c: nat): seq<byte>
    requires Execution(states, actions, unwraps) && i <= |actions|
  {
    if i == 0 || c >= |states[i].pcs| || !states[i].pcs[c].Expecting? then []
    else
      var s, a := states[i - 1], actions[i - 1];
      AckRead(states, actions, unwraps, i - 1, c)
      + if a.ReadAck? && a.c == c then TakenBy(s, a, s.pcs[c].entry.conn) else []
  }

  /** The frames that the history says were written to a stream. */
  function WrittenTo(h: seq<Event>, to: nat): seq<PeerFrame> {
    if h == [] then []
    else
      var e := h[|h| - 1];
      WrittenTo(h[..|h| - 1], to) + if e.Wrote? && e.to == to then [e.written] else []
  }

  // ---------------------------------------------------------------- octets from the peers

  /**
   Everything a peer sent has been taken, by some task and in order, or is still on its way;
   and what its own task has read is the encodings of the requests it has found, and the
   octets in its buffer.
   */
  lemma {:induction false} OctetsConserved(states: seq<State>, actions: seq<Action>, unwraps: bool, i: nat, c: nat)
    requires Execution(states, actions, unwraps) && i <= |actions| && c < |states[0].ips|
    ensures Shape(states[i]) && states[i].ips == states[0].ips
    ensures Delivered(actions[..i], c) == Taken(states, actions, unwraps, i, c) + states[i].inbox[c]
    ensures Read(states, actions, unwraps, i, c)
            == EncodeAll(EncodeRelay, Requests(states[i].history, c)) + states[i].buffers[c]
  {
    hide Can, Do, Shape, TakenBy, ReadBy, Requests, EncodeAll, EncodeRelay;
    if i == 0 {
      InitialShape(states[0]);
      NothingFlows(states[0], c);
    } else {
      OctetsConserved(states, actions, unwraps, i - 1, c);
      var s, a := states[i - 1], actions[i - 1];
      StepShape(s, a, unwraps);
      assert actions[..i][..i - 1] == actions[..i - 1];
      StepTaken(s, a, unwraps, c, Delivered(actions[..i - 1], c), Taken(states, actions, unwraps, i - 1, c));
      StepRead(s, a, unwraps, c, Read(states, actions, unwraps, i - 1, c));
    }
  }

  lemma NothingFlows(s: State, c: nat)
    requires Initial(s) && Shape(s) && c < |s.ips|
    ensures s.inbox[c] == [] && EncodeAll(EncodeRelay, Requests(s.history, c)) + s.buffers[c] == []
  {}

  lemma StepTaken(s: State, a: Action, unwraps: bool, c: nat, sent: seq<byte>, taken: seq<byte>)
    requires Shape(s) && Can(s, a) && c < |s.ips| && Shape(Do(s, a, unwraps)) && Do(s, a, unwraps).ips == s.ips
    requires sent == taken + s.inbox[c]
    ensures sent + (if a.Deliver? && a.c == c then a.bytes else [])
            == taken + TakenBy(s, a, c) + Do(s, a, unwraps).inbox[c]
  {
    hide ParseRelay, EncodePeer;
    StepInput(s, a, unwraps, c);
    var n := |TakenBy(s, a, c)|;
    var more := if a.Deliver? && a.c == c then a.bytes else [];
    assert TakenBy(s, a, c) == s.inbox[c][..n];
    assert Do(s, a, unwraps).inbox[c] == s.inbox[c][n..] + more;
    hide Do, Shape, Can, TakenBy;
    TakeOff(taken, s.inbox[c], n, more);
  }

  lemma TakeOff(taken: seq<byte>, inbox: seq<byte>, n: nat, more: seq<byte>)
    requires n <= |inbox|
    ensures taken + inbox + more == taken + inbox[..n] + (inbox[n..] + more)
  {
    assert inbox == inbox[..n] + inbox[n..];
  }

  lemma StepRead(s: State, a: Action, unwraps: bool, c: nat, read: seq<byte>)
    requires Shape(s) && Can(s, a) && c < |s.ips| && Shape(Do(s, a, unwraps)) && Do(s, a, unwraps).ips == s.ips
    requires read == EncodeAll(EncodeRelay, Requests(s.history, c)) + s.buffers[c]
    ensures read + ReadBy(s, a, c)
            == EncodeAll(EncodeRelay, Requests(Do(s, a, unwraps).history, c)) + Do(s, a, unwraps).buffers[c]
  {
    hide ParseRelay, EncodeRelay, EncodeAll, EncodePeer, Requests, News;
    StepInput(s, a, unwraps, c);
    StepNews(s, a, unwraps);
    StepRequests(s, a, c);
    hide Do, Shape;
    var q, b := Requests(s.history, c), s.buffers[c];
    assert q + [] == q && read + [] == read;
    if a.Take? && a.c == c && ParseRelay(b).Done? {
      TakenFrame(q, b);
    }
  }

  /** What a task takes for an acknowledgement is what it has read since it wrote SYNC, and nothing else. */
  lemma {:induction false} AckIsRead(states: seq<State>, actions: seq<Action>, unwraps: bool, i: nat, c: nat)
    requires Execution(states, actions, unwraps) && i <= |actions|
    requires c < |states[i].pcs| && states[i].pcs[c].Expecting?
    ensures states[i].pcs[c].bytes == AckRead(states, actions, unwraps, i, c)
  {
    hide Can, Do, Shape, TakenBy;
    if i > 0 {
      var s, a := states[i - 1], actions[i - 1];
      StepAck(s, a, unwraps, c);
      if s.pcs[c].Expecting? {
        AckIsRead(states, actions, unwraps, i - 1, c);
      }
    }
  }

  lemma StepAck(s: State, a: Action, unwraps: bool, c: nat)
    requires Shape(s) && Can(s, a)
    requires var t := Do(s, a, unwraps); c < |t.pcs| && t.pcs[c].Expecting?
    ensures c < |s.pcs|
    ensures var t := Do(s, a, unwraps);
      if !s.pcs[c].Expecting? then t.pcs[c].bytes == [] && !(a.ReadAck? && a.c == c)
      else
        && s.pcs[c].entry.conn < |s.ips|
        && t.pcs[c].bytes == s.pcs[c].bytes +
             if a.ReadAck? && a.c == c then TakenBy(s, a, s.pcs[c].entry.conn) else []
  {
    hide ParseRelay, EncodePeer;
  }

  /** What becomes of it: the event says what was read, and the probe succeeds exactly on a ProbeAck. */
  lemma AckDecides(states: seq<State>, actions: seq<Action>, unwraps: bool, i: nat, c: nat, rtt: Duration)
    requires Execution(states, actions, unwraps) && i < |actions| && actions[i] == TakeAck(c, rtt)
    requires c < |states[i].pcs| && states[i].pcs[c].Expecting?
    ensures var s, t := states[i], states[i + 1];
      var pc, read := s.pcs[c], ParseRelay(AckRead(states, actions, unwraps, i, c));
      && c < |t.pcs|
      && match read
         case Done(frame, _) =>
           if frame == ProbeAck then
             var info := PeerInfo(pc.id, pc.entry.ip, rtt);
             && t.history == s.history + [Acked(c, pc.entry.conn, ProbeAck),
                                          ProbeOk(c, pc.id, pc.entry, info, pc.since)]
             && t.pcs[c] == Reply(c, ProbeResult(Some(info)))
           else
             && t.history == s.history + [Acked(c, pc.entry.conn, frame)]
             && t.pcs[c] == Reply(c, ProbeResult(None))
         case Invalid => t.history == s.history && t.pcs[c] == Stopped
         case Incomplete => false
  {
    hide ParseRelay, EncodePeer, AckRead;
    AckIsRead(states, actions, unwraps, i, c);
    var s := states[i];
    assert Shape(s) && Can(s, actions[i]) && states[i + 1] == Do(s, actions[i], unwraps);
    var read := ParseRelay(s.pcs[c].bytes);
    if read.Done? && read.value == ProbeAck {
      var acked := Acked(c, s.pcs[c].entry.conn, ProbeAck);
      var ok := ProbeOk(c, s.pcs[c].id, s.pcs[c].entry, PeerInfo(s.pcs[c].id, s.pcs[c].entry.ip, rtt), s.pcs[c].since);
      assert s.history + [acked] + [ok] == s.history + [acked, ok];
    }
  }

  // ---------------------------------------------------------------- octets to the peers

  /** The history tells of exactly the frames on a stream, but for one that is still being written. */
  ghost predicate Recorded(s: State)
    requires Shape(s)
  {
    forall to | 0 <= to < |s.ips| :: RecordedOn(s, to)
  }

  ghost predicate RecordedOn(s: State, to: nat)
    requires Shape(s) && to < |s.ips|
  {
    match s.locks[to]
    case None => s.logs[to] == WrittenTo(s.history, to)
    case Some(t) => t < |s.pcs| && s.pcs[t].Writing? && s.logs[to] == WrittenTo(s.history, to) + [s.pcs[t].frame]
  }

  lemma WrittenOne(h: seq<Event>, e: Event, to: nat)
    ensures WrittenTo(h + [e], to) == WrittenTo(h, to) + if e.Wrote? && e.to == to then [e.written] else []
  {
    assert (h + [e])[..|h|] == h;
  }

  /** Only a release records a write. */
  lemma StepWritten(s: State, a: Action, to: nat)
    requires Shape(s) && Can(s, a)
    ensures WrittenTo(s.history + News(s, a), to) == WrittenTo(s.history, to) +
            if a.Release? && s.pcs[a.c].to == to then [s.pcs[a.c].frame] else []
  {
    hide ParseRelay, EncodePeer, WrittenTo;
    var h, news := s.history, News(s, a);
    if news == [] {
      assert h + news == h;
    } else {
      WrittenOne(h, news[0], to);
      if |news| == 1 {
        assert news == [news[0]];
      } else {
        WrittenOne(h + [news[0]], news[1], to);
        assert h + news == h + [news[0]] + [news[1]];
      }
    }
  }

  /** What a step does to locks, and to tasks that are writing. */
  lemma StepLocks(s: State, a: Action, unwraps: bool)
    requires Shape(s) && Can(s, a)
    ensures var t := Do(s, a, unwraps); var pc := s.pcs[a.c];
      && (a.Lock? ==> pc.to < |s.ips| && s.locks[pc.to].None? && t.locks == s.locks[pc.to := Some(a.c)]
                      && t.pcs[a.c].Writing? && t.pcs[a.c].frame == pc.frame)
      && (a.Release? ==> pc.to < |s.ips| && t.locks == s.locks[pc.to := None])
      && (!a.Lock? && !a.Release? ==> t.locks == s.locks)
      && (!a.Release? && pc.Writing? ==> t.pcs[a.c].Writing? && t.pcs[a.c].frame == pc.frame && t.pcs[a.c].to == pc.to)
  {
    hide ParseRelay, EncodePeer;
    assert PcShape(s.pcs[a.c], a.c, |s.ips|, s.ips[a.c]);
  }

  lemma StepRecorded(s: State, a: Action, unwraps: bool)
    requires Shape(s) && Can(s, a) && Atomic(s) && Recorded(s)
    requires Shape(Do(s, a, unwraps)) && Do(s, a, unwraps).ips == s.ips
    ensures Recorded(Do(s, a, unwraps))
  {
    hide ParseRelay, EncodePeer, EncodeAll, WrittenTo, News, StreamOk;
    var t := Do(s, a, unwraps);
    StepNews(s, a, unwraps);
    LogsGrow(s, a, unwraps);
    StepLocks(s, a, unwraps);
    forall to | 0 <= to < |t.ips|
      ensures RecordedOn(t, to)
    {
      StepWritten(s, a, to);
      assert RecordedOn(s, to) && StreamOk(s, to);
      OneRecorded(s, a, unwraps, to);
    }
  }

  lemma OneRecorded(s: State, a: Action, unwraps: bool, to: nat)
    requires Shape(s) && Can(s, a) && to < |s.ips| && StreamOk(s, to) && RecordedOn(s, to)
    requires s.pcs[a.c].Writing? ==> s.locks[s.pcs[a.c].to] == Some(a.c)
    requires Shape(Do(s, a, unwraps)) && Do(s, a, unwraps).ips == s.ips
    ensures RecordedOn(Do(s, a, unwraps), to)
  {
    hide ParseRelay, EncodePeer, EncodeAll, WrittenTo, News;
    var t := Do(s, a, unwraps);
    StepNews(s, a, unwraps);
    LogsGrow(s, a, unwraps);
    StepLocks(s, a, unwraps);
    StepWritten(s, a, to);
    hide Do;
    var h := WrittenTo(s.history, to);
    assert h + [] == h && s.logs[to] + [] == s.logs[to];
  }

  lemma NothingRecorded(s: State)
    requires Initial(s) && Shape(s)
    ensures Recorded(s)
  {}

  /**
   On every run, the octets on a stream that nobody is writing to are exactly the encodings
   of the frames that the history says were written to it, in that order.
   */
  lemma {:induction false} HistoryIsOnTheWire(states: seq<State>, actions: seq<Action>, unwraps: bool, i: nat)
    requires Execution(states, actions, unwraps) && i < |states|
    ensures Shape(states[i]) && Recorded(states[i])
    ensures forall to | 0 <= to < |states[i].ips| && states[i].locks[to].None? ::
              states[i].outbox[to] == EncodeAll(EncodePeer, WrittenTo(states[i].history, to))
  {
    hide Can, Do, Shape, Recorded, EncodeAll, EncodePeer, WrittenTo;
    AlwaysAtomic(states, actions, unwraps, i);
    if i == 0 {
      NothingRecorded(states[0]);
    } else {
      HistoryIsOnTheWire(states, actions, unwraps, i - 1);
      AlwaysAtomic(states, actions, unwraps, i - 1);
      StepRecorded(states[i - 1], actions[i - 1], unwraps);
    }
    WireOfRecorded(states[i]);
  }

  lemma WireOfRecorded(s: State)
    requires Shape(s) && Atomic(s) && Recorded(s)
    ensures forall to | 0 <= to < |s.ips| && s.locks[to].None? ::
              s.outbox[to] == EncodeAll(EncodePeer, WrittenTo(s.history, to))
  {
    hide EncodeAll, EncodePeer, WrittenTo;
    forall to | 0 <= to < |s.ips| && s.locks[to].None?
      ensures s.outbox[to] == EncodeAll(EncodePeer, WrittenTo(s.history, to))
    {
      assert StreamOk(s, to) && RecordedOn(s, to);
    }
  }
}
