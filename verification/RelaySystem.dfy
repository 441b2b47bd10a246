/**
 The relay as interleaved steps. Every accepted connection has a task of its own; the
 tasks share the registry and write to each other's streams, one lock per stream. A step
 is what a task does between two points where another task can run: one read, one lookup,
 one part of a write. What the peers send, when, and in which pieces, is unconstrained.
 */
module RelaySystem {
  import opened Bytes
  import opened Peers
  import opened RelayFrames

  /** What the registry keeps for an id: the address and the stream of the connection that registered it. */
  datatype Entry = Entry(ip: IpAddr, conn: nat)

  /** What a task does once the frame it is writing is out. */
  datatype Then =
    | Replied
    | Synced(id: PeerId, entry: Entry, since: nat)
    | Told(id: PeerId, entry: Entry, since: nat)

  /** Where a task is. `since` is the place of the call's lookup in the history. */
  datatype Pc =
    | Listening
    | Registering(id: PeerId)
    | Probing(id: PeerId)
    | Telling(id: PeerId)
    | Waiting(to: nat, frame: PeerFrame, next: Then)
    | Writing(to: nat, frame: PeerFrame, sent: nat, next: Then)
    | Expecting(id: PeerId, entry: Entry, since: nat, bytes: seq<byte>)
    | Stopped

  datatype Event =
    | Request(task: nat, frame: RelayFrame)
    | Inserted(task: nat, id: PeerId, entry: Entry)
    | Found(task: nat, id: PeerId, entry: Entry)
    | Missing(task: nat, id: PeerId)
    | Wrote(task: nat, to: nat, written: PeerFrame)
    | Acked(task: nat, from: nat, frame: RelayFrame)
    | ProbeOk(task: nat, id: PeerId, entry: Entry, info: PeerInfo, since: nat)
    | ConnectOk(task: nat, id: PeerId, entry: Entry, ip: IpAddr, since: nat)

  /**
   One entry per connection in every sequence. `inbox` is what the peer sent and nobody
   read, `outbox` all that was put on the stream; `logs` and `history` are for proofs:
   the frames whose writers took the stream's lock, in that order, and all events.
   */
  datatype State = State(
    registry: map<PeerId, Entry>,
    ips: seq<IpAddr>,
    pcs: seq<Pc>,
    buffers: seq<seq<byte>>,
    inbox: seq<seq<byte>>,
    outbox: seq<seq<byte>>,
    locks: seq<Option<nat>>,
    logs: seq<seq<PeerFrame>>,
    history: seq<Event>)
  {
    function Goto(c: nat, pc: Pc): State
      requires c < |pcs|
    {
      this.(pcs := pcs[c := pc])
    }

    function Record(e: Event): State {
      this.(history := history + [e])
    }
  }

  predicate Initial(s: State) {
    var n := |s.ips|;
    && |s.pcs| == |s.buffers| == |s.inbox| == |s.outbox| == |s.locks| == |s.logs| == n
    && s.registry == map[] && s.history == []
    && forall c | 0 <= c < n ::
         && s.pcs[c] == Listening && s.locks[c] == None && s.logs[c] == []
         && s.buffers[c] == [] && s.inbox[c] == [] && s.outbox[c] == []
  }

  datatype Action =
    | Deliver(c: nat, bytes: seq<byte>)  // the peer sends some octets
    | Read(c: nat, n: nat)               // a task reads from its own stream
    | Take(c: nat)                       // ... and finds a frame, or garbage, in its buffer
    | Hangup(c: nat)                     // ... or the end of the stream
    | Insert(c: nat)
    | Lookup(c: nat)
    | Lock(c: nat)
    | Write(c: nat, n: nat)
    | Release(c: nat)
    | ReadAck(c: nat, n: nat)            // a probing task reads from the probed peer's stream
    | TakeAck(c: nat, rtt: Duration)
    | HangupAck(c: nat)

  /** A task holds the registry's reference for an id from its lookup to the end of the call. */
  predicate Guards(pc: Pc, id: PeerId) {
    match pc
    case Waiting(_, _, Synced(i, _, _)) => i == id
    case Writing(_, _, _, Synced(i, _, _)) => i == id
    case Waiting(_, _, Told(i, _, _)) => i == id
    case Writing(_, _, _, Told(i, _, _)) => i == id
    case Expecting(i, _, _, _) => i == id
    case _ => false
  }

  predicate Can(s: State, a: Action)
    requires Shape(s)
  {
    && a.c < |s.pcs|
    && var pc := s.pcs[a.c];
    match a
    case Deliver(c, bytes) => bytes != []
    case Read(c, n) =>
      pc.Listening? && ParseRelay(s.buffers[c]).Incomplete? && s.locks[c].None? && 0 < n <= |s.inbox[c]|
    case Take(c) => pc.Listening? && !ParseRelay(s.buffers[c]).Incomplete?
    case Hangup(c) => pc.Listening? && ParseRelay(s.buffers[c]).Incomplete? && s.inbox[c] == []
    case Insert(c) => pc.Registering? && forall t | 0 <= t < |s.pcs| :: !Guards(s.pcs[t], pc.id)
    case Lookup(c) => pc.Probing? || pc.Telling?
    case Lock(c) => pc.Waiting? && s.locks[pc.to].None?
    case Write(c, n) => pc.Writing? && 0 < n <= |EncodePeer(pc.frame)| - pc.sent
    case Release(c) => pc.Writing? && pc.sent == |EncodePeer(pc.frame)|
    case ReadAck(c, n) =>
      pc.Expecting? && ParseRelay(pc.bytes).Incomplete? && s.locks[pc.entry.conn].None?
      && 0 < n <= |s.inbox[pc.entry.conn]|
    case TakeAck(c, _) => pc.Expecting? && !ParseRelay(pc.bytes).Incomplete?
    case HangupAck(c) => pc.Expecting? && ParseRelay(pc.bytes).Incomplete? && s.inbox[pc.entry.conn] == []
  }

  /** The reply to the peer of connection c, to be written next. */
  function Reply(c: nat, frame: PeerFrame): Pc {
    Waiting(c, frame, Replied)
  }

  /** Lines 308-334: dispatch on the frame. The health status of the server never changes. */
  function Handle(c: nat, frame: RelayFrame): Pc {
    match frame
    case Register(id) => Registering(id)
    case Probe(id) => Probing(id)
    case DoConnect(id) => Telling(id)
    case Ping => Reply(c, PingResult(Healthy))
    case ProbeAck => Stopped
  }

  /**
   The effect of a step. `unwraps` says whether registering an id for the first time
   panics, as the `unwrap` of the previous map value at line 167 makes it; the insertion
   itself has happened by then.
   */
  function Do(s: State, a: Action, unwraps: bool): State
    requires Shape(s) && Can(s, a)
  {
    var c := a.c;
    var pc := s.pcs[c];
    match a
    case Deliver(_, bytes) => s.(inbox := s.inbox[c := s.inbox[c] + bytes])
    case Read(_, n) =>
      s.(buffers := s.buffers[c := s.buffers[c] + s.inbox[c][..n]], inbox := s.inbox[c := s.inbox[c][n..]])
    case Take(_) =>
      var parsed := ParseRelay(s.buffers[c]);
      if parsed.Invalid? then s.Goto(c, Stopped)
      else s.(buffers := s.buffers[c := s.buffers[c][parsed.used..]])
            .Record(Request(c, parsed.value)).Goto(c, Handle(c, parsed.value))
    case Hangup(_) => s.Goto(c, Stopped)
    case Insert(_) =>
      var entry := Entry(s.ips[c], c);
      s.(registry := s.registry[pc.id := entry]).Record(Inserted(c, pc.id, entry))
       .Goto(c, if unwraps && pc.id !in s.registry then Stopped else Reply(c, RegisterResult(Success)))
    case Lookup(_) =>
      if pc.id !in s.registry then
        s.Record(Missing(c, pc.id))
         .Goto(c, Reply(c, if pc.Probing? then ProbeResult(None) else DoConnectResult(Failure)))
      else
        var entry, since := s.registry[pc.id], |s.history|;
        s.Record(Found(c, pc.id, entry)).Goto(c,
          if pc.Probing? then Waiting(entry.conn, Command(Sync), Synced(pc.id, entry, since))
          else Waiting(entry.conn, Command(ConnectTo(s.ips[c])), Told(pc.id, entry, since)))
    case Lock(_) =>
      s.(locks := s.locks[pc.to := Some(c)], logs := s.logs[pc.to := s.logs[pc.to] + [pc.frame]])
       .Goto(c, Writing(pc.to, pc.frame, 0, pc.next))
    case Write(_, n) =>
      s.(outbox := s.outbox[pc.to := s.outbox[pc.to] + EncodePeer(pc.frame)[pc.sent..pc.sent + n]])
       .Goto(c, Writing(pc.to, pc.frame, pc.sent + n, pc.next))
    case Release(_) =>
      var t := s.(locks := s.locks[pc.to := None]).Record(Wrote(c, pc.to, pc.frame)).Goto(c, AfterWrite(c, pc.next));
      if pc.next.Told? then t.Record(ConnectOk(c, pc.next.id, pc.next.entry, s.ips[c], pc.next.since)) else t
    case ReadAck(_, n) =>
      var from := pc.entry.conn;
      s.(inbox := s.inbox[from := s.inbox[from][n..]]).Goto(c, pc.(bytes := pc.bytes + s.inbox[from][..n]))
    case TakeAck(_, rtt) =>
      var parsed := ParseRelay(pc.bytes);
      if parsed.Invalid? then s.Goto(c, Stopped)
      else
        var t := s.Record(Acked(c, pc.entry.conn, parsed.value));
        if parsed.value.ProbeAck? then
          var info := PeerInfo(pc.id, pc.entry.ip, rtt);
          t.Record(ProbeOk(c, pc.id, pc.entry, info, pc.since)).Goto(c, Reply(c, ProbeResult(Some(info))))
        else t.Goto(c, Reply(c, ProbeResult(None)))
    case HangupAck(_) => s.Goto(c, if pc.bytes == [] then Reply(c, ProbeResult(None)) else Stopped)
  }

  function AfterWrite(c: nat, next: Then): Pc {
    match next
    case Replied => Listening
    case Synced(id, entry, since) => Expecting(id, entry, since, [])
    case Told(_, _, _) => Reply(c, DoConnectResult(Success))
  }

  /** A run: states linked by steps that were possible. */
  ghost predicate Execution(states: seq<State>, actions: seq<Action>, unwraps: bool) {
    && |states| == |actions| + 1 && Initial(states[0])
    && forall i | 0 <= i < |actions| ::
         Shape(states[i]) && Can(states[i], actions[i]) && states[i + 1] == Do(states[i], actions[i], unwraps)
  }

  // ---------------------------------------------------------------- shape

  predicate PcShape(pc: Pc, c: nat, n: nat, ip: IpAddr) {
    match pc
    case Waiting(to, frame, next) => to < n && ThenShape(c, to, frame, next, ip)
    case Writing(to, frame, sent, next) => to < n && sent <= |EncodePeer(frame)| && ThenShape(c, to, frame, next, ip)
    case Expecting(_, entry, _, _) => entry.conn < n
    case _ => true
  }

  /** Replies go to the task's own stream, commands to the one that was looked up. */
  predicate ThenShape(c: nat, to: nat, frame: PeerFrame, next: Then, ip: IpAddr) {
    match next
    case Replied => to == c && !frame.Command?
    case Synced(_, entry, _) => to == entry.conn && frame == Command(Sync)
    case Told(_, entry, _) => to == entry.conn && frame == Command(ConnectTo(ip))
  }

  predicate Shape(s: State) {
    var n := |s.ips|;
    && |s.pcs| == |s.buffers| == |s.inbox| == |s.outbox| == |s.locks| == |s.logs| == n
    && (forall id | id in s.registry :: s.registry[id].conn < n)
    && forall c | 0 <= c < n :: PcShape(s.pcs[c], c, n, s.ips[c])
  }

  lemma InitialShape(s: State)
    requires Initial(s)
    ensures Shape(s)
  {}

  lemma StepShape(s: State, a: Action, unwraps: bool)
    requires Shape(s) && Can(s, a)
    ensures Shape(Do(s, a, unwraps))
    ensures Do(s, a, unwraps).ips == s.ips
  {
    hide ParseRelay, EncodePeer;
    var t := Do(s, a, unwraps);
    StepPlace(s, a, unwraps);
    forall c | 0 <= c < |s.ips| && c != a.c
      ensures PcShape(t.pcs[c], c, |s.ips|, s.ips[c])
    {}
    hide PcShape;
  }

  /** The step takes the task itself to a place of the right shape, and moves no other task. */
  lemma StepPlace(s: State, a: Action, unwraps: bool)
    requires Shape(s) && Can(s, a)
    ensures var t := Do(s, a, unwraps);
      |t.pcs| == |s.pcs| && t.pcs == s.pcs[a.c := t.pcs[a.c]] && PcShape(t.pcs[a.c], a.c, |s.ips|, s.ips[a.c])
  {
    hide ParseRelay, EncodePeer;
    assert PcShape(s.pcs[a.c], a.c, |s.ips|, s.ips[a.c]);
  }

  /** Only taking a lock adds to a log. */
  lemma LogsGrow(s: State, a: Action, unwraps: bool)
    requires Shape(s) && Can(s, a)
    ensures var t := Do(s, a, unwraps);
      && |t.logs| == |s.logs|
      && (forall c | 0 <= c < |s.logs| :: t.logs[c] == s.logs[c] +
            if a.Lock? && s.pcs[a.c].to == c then [s.pcs[a.c].frame] else [])
  {
    hide ParseRelay, EncodePeer;
  }

  /** What a relay step does to one connection's input. */
  lemma StepInput(s: State, a: Action, unwraps: bool, c: nat)
    requires Shape(s) && Can(s, a) && c < |s.ips|
    ensures var t := Do(s, a, unwraps);
      && |t.buffers| == |s.buffers| && |t.inbox| == |s.inbox|
      && t.inbox[c] == (
        if a.Deliver? && a.c == c then s.inbox[c] + a.bytes
        else if a.Read? && a.c == c then s.inbox[c][a.n..]
        else if a.ReadAck? && s.pcs[a.c].entry.conn == c then s.inbox[c][a.n..]
        else s.inbox[c])
      && t.buffers[c] == (
        if a.Read? && a.c == c then s.buffers[c] + s.inbox[c][..a.n]
        else if a.Take? && a.c == c && ParseRelay(s.buffers[c]).Done? then s.buffers[c][ParseRelay(s.buffers[c]).used..]
        else s.buffers[c])
  {
    hide ParseRelay, EncodePeer;
  }

  // ---------------------------------------------------------------- who stops, and who can go on

  /** Exactly why a task stops. */
  lemma StopsExactly(s: State, a: Action, unwraps: bool, c: nat)
    requires Shape(s) && Can(s, a) && c < |s.pcs| && !s.pcs[c].Stopped?
    ensures |Do(s, a, unwraps).pcs| == |s.pcs|
    ensures Do(s, a, unwraps).pcs[c].Stopped? <==>
      && a.c == c
      && match a
         case Take(_) => ParseRelay(s.buffers[c]).Invalid? || ParseRelay(s.buffers[c]).value == ProbeAck
         case Hangup(_) => true
         case TakeAck(_, _) => ParseRelay(s.pcs[c].bytes).Invalid?
         case HangupAck(_) => s.pcs[c].bytes != []
         case Insert(_) => unwraps && s.pcs[c].id !in s.registry
         case _ => false
  {
    hide ParseRelay, EncodePeer;
  }

  /** A task that has stopped takes no step, and stays where it is. */
  lemma StoppedForGood(s: State, a: Action, unwraps: bool, c: nat)
    requires Shape(s) && Can(s, a) && c < |s.pcs| && s.pcs[c].Stopped?
    ensures a.Deliver? || a.c != c
    ensures |Do(s, a, unwraps).pcs| == |s.pcs| && Do(s, a, unwraps).pcs[c].Stopped?
  {
    hide ParseRelay, EncodePeer;
  }

  /**
   A task that has not stopped can take a step of its own, unless it waits for a lock that
   somebody holds, or to register an id that somebody's call is about.
   */
  lemma CanGoOn(s: State, c: nat, rtt: Duration) returns (a: Action)
    requires Shape(s) && c < |s.pcs| && !s.pcs[c].Stopped?
    requires s.pcs[c].Waiting? ==> s.locks[s.pcs[c].to].None?
    requires s.pcs[c].Listening? ==> s.locks[c].None?
    requires s.pcs[c].Expecting? ==> s.locks[s.pcs[c].entry.conn].None?
    requires s.pcs[c].Registering? ==> forall t | 0 <= t < |s.pcs| :: !Guards(s.pcs[t], s.pcs[c].id)
    ensures Can(s, a) && a.c == c && !a.Deliver?
  {
    hide ParseRelay, EncodePeer;
    var pc := s.pcs[c];
    assert PcShape(pc, c, |s.ips|, s.ips[c]);
    match pc {
      case Listening =>
        a := if !ParseRelay(s.buffers[c]).Incomplete? then Take(c)
             else if s.inbox[c] == [] then Hangup(c) else Read(c, 1);
      case Registering(_) => a := Insert(c);
      case Probing(_) => a := Lookup(c);
      case Telling(_) => a := Lookup(c);
      case Waiting(_, _, _) => a := Lock(c);
      case Writing(_, frame, sent, _) => a := if sent == |EncodePeer(frame)| then Release(c) else Write(c, 1);
      case Expecting(_, entry, _, bytes) =>
        a := if !ParseRelay(bytes).Incomplete? then TakeAck(c, rtt)
             else if s.inbox[entry.conn] == [] then HangupAck(c) else ReadAck(c, 1);
    }
  }
}
