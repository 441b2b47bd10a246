/** The counterpart of safety: between honest peers, some run does bring the sender to connect. */
module Rendezvous {
  import opened Bytes
  import opened Peers
  import opened RelayFrames
  import opened RelaySystem
  import opened Sender
  import opened WholeSystem

  ghost predicate Reachable(w: Cast, x: System) {
    exists systems, moves :: SystemRun(w, systems, moves) && systems[|moves|] == x
  }

  lemma ReachableShape(w: Cast, x: System)
    requires Reachable(w, x)
    ensures SystemShape(w, x)
  {
    var systems, moves :| SystemRun(w, systems, moves) && systems[|moves|] == x;
    AlwaysSystemInv(w, systems, moves, |moves|);
    hide SystemRun, SystemShape;
  }

  lemma Extend(w: Cast, x: System, m: Move)
    requires Reachable(w, x) && SystemShape(w, x) && Possible(w, x, m)
    ensures Reachable(w, Moved(w, x, m))
  {
    hide Possible, Moved, SystemShape, Initial;
    var systems, moves :| SystemRun(w, systems, moves) && systems[|moves|] == x;
    var systems', moves' := systems + [Moved(w, x, m)], moves + [m];
    forall i | 0 <= i < |moves'|
      ensures SystemShape(w, systems'[i]) && Possible(w, systems'[i], moves'[i])
              && systems'[i + 1] == Moved(w, systems'[i], moves'[i])
    {
      assert i < |moves| ==> systems'[i] == systems[i] && systems'[i + 1] == systems[i + 1];
    }
    assert SystemRun(w, systems', moves');
  }

  /** What the tasks are doing, what is on the wire, and what was written to the sender on connection 0. */
  datatype View = View(
    registry: map<PeerId, Entry>,
    pcs: seq<Pc>,
    inbox: seq<seq<byte>>,
    logs: seq<seq<PeerFrame>>,
    toMe: seq<byte>,
    taken: nat, sent: nat)
  {
    function At(c: nat, pc: Pc): View
      requires c < |pcs|
    {
      this.(pcs := pcs[c := pc])
    }

    function On(c: nat, bytes: seq<byte>): View
      requires c < |inbox|
    {
      this.(inbox := inbox[c := bytes])
    }
  }

  /** The view is all there is to the state: nothing is buffered, and no lock is held. */
  ghost predicate Shows(x: System, ips: seq<IpAddr>, v: View) {
    var s := x.relay;
    && s.ips == ips && s.registry == v.registry && s.pcs == v.pcs && s.inbox == v.inbox
    && s.logs == v.logs
    && |s.buffers| == |s.outbox| == |s.locks| == |ips| > 1
    && (forall c | 0 <= c < |ips| :: s.buffers[c] == [] && s.locks[c] == None)
    && s.outbox[0] == v.toMe && x.taken == v.taken && x.sent == v.sent
  }

  ghost predicate Reaches(w: Cast, ips: seq<IpAddr>, v: View) {
    && w.me == 0 && |v.pcs| == |v.inbox| == |v.logs| == |ips| > 1
    && exists x :: Reachable(w, x) && Shows(x, ips, v)
  }

  function Idle(n: nat): View {
    View(map[], seq(n, _ => Listening), seq(n, _ => []), seq(n, _ => []), [], 0, 0)
  }

  lemma Start(w: Cast, ips: seq<IpAddr>)
    requires |ips| > 1 && w.me == 0
    ensures Reaches(w, ips, Idle(|ips|))
  {
    var n := |ips|;
    var v := Idle(n);
    var x := System(State(map[], ips, v.pcs, v.inbox, v.inbox, v.inbox, seq(n, _ => None), v.logs, []), 0, 0);
    var moves: seq<Move> := [];
    assert SystemRun(w, [x], moves) && [x][|moves|] == x;
    assert Shows(x, ips, v);
  }

  /** The sender writes its next frame, in one piece. */
  lemma Sends(w: Cast, ips: seq<IpAddr>, v: View)
    requires Reaches(w, ips, v) && v.inbox[0] == []
    requires v.sent == 0 || (v.sent == 65 && v.taken == |v.toMe| && RegistrationAnswered(v.toMe))
    ensures var f := if v.sent == 0 then Register(w.source) else Probe(w.destination);
      Reaches(w, ips, v.On(0, EncodeRelay(f)).(sent := v.sent + 65))
  {
    hide RegistrationAnswered, Reachable;
    var x :| Reachable(w, x) && Shows(x, ips, v);
    ReachableShape(w, x);
    assert Arrived(w, x) == v.toMe[..v.taken];
    assert v.taken == |v.toMe| ==> v.toMe[..v.taken] == v.toMe;
    Extend(w, x, Send(65));
    var f := if v.sent == 0 then Register(w.source) else Probe(w.destination);
    assert Script(w)[v.sent..v.sent + 65] == EncodeRelay(f);
    assert x.relay.inbox[0] + EncodeRelay(f) == EncodeRelay(f);
    assert Shows(Moved(w, x, Send(65)), ips, v.On(0, EncodeRelay(f)).(sent := v.sent + 65));
  }

  lemma TheySend(w: Cast, ips: seq<IpAddr>, v: View, c: nat, f: RelayFrame)
    requires Reaches(w, ips, v) && 0 < c < |ips| && v.inbox[c] == []
    ensures Reaches(w, ips, v.On(c, EncodeRelay(f)))
  {
    hide EncodeRelay, Reachable;
    var x :| Reachable(w, x) && Shows(x, ips, v);
    ReachableShape(w, x);
    var m := Relay(Deliver(c, EncodeRelay(f)));
    assert x.relay.inbox[c] + EncodeRelay(f) == EncodeRelay(f);
    Extend(w, x, m);
    assert Shows(Moved(w, x, m), ips, v.On(c, EncodeRelay(f)));
  }

  /** As `Shows`, but task c has read these octets. */
  ghost predicate ShowsHeld(x: System, ips: seq<IpAddr>, v: View, c: nat, bytes: seq<byte>) {
    && c < |x.relay.buffers| && x.relay.buffers[c] == bytes
    && Shows(x.(relay := x.relay.(buffers := x.relay.buffers[c := []])), ips, v)
  }

  /** A task reads a whole frame and finds it. */
  lemma Takes(w: Cast, ips: seq<IpAddr>, v: View, c: nat, f: RelayFrame)
    requires Reaches(w, ips, v) && c < |ips| && v.pcs[c] == Listening && v.inbox[c] == EncodeRelay(f)
    ensures Reaches(w, ips, v.On(c, []).At(c, Handle(c, f)))
  {
    hide EncodeRelay, Reachable, ParseRelay, Handle;
    var x :| Reachable(w, x) && Shows(x, ips, v);
    ReachableShape(w, x);
    var bytes := EncodeRelay(f);
    var m := Relay(Read(c, |bytes|));
    assert [] + bytes[..|bytes|] == bytes && bytes[|bytes|..] == [];
    NothingParsed();
    Extend(w, x, m);
    assert ShowsHeld(Moved(w, x, m), ips, v.On(c, []), c, bytes);
    hide Shows, Moved;
    Finds(w, ips, Moved(w, x, m), v.On(c, []), c, f);
  }

  lemma NothingParsed()
    ensures ParseRelay([]).Incomplete?
  {}

  lemma Finds(w: Cast, ips: seq<IpAddr>, x: System, v: View, c: nat, f: RelayFrame)
    requires w.me == 0 && |v.pcs| == |v.logs| == |ips| && Reachable(w, x) && c < |ips| && v.pcs[c] == Listening
    requires ShowsHeld(x, ips, v, c, EncodeRelay(f))
    ensures Reaches(w, ips, v.At(c, Handle(c, f)))
  {
    hide EncodeRelay, Reachable, ParseRelay, Handle;
    ReachableShape(w, x);
    RelayRoundTrip(f, []);
    assert EncodeRelay(f) + [] == EncodeRelay(f);
    Extend(w, x, Relay(Take(c)));
    assert Shows(Moved(w, x, Relay(Take(c))), ips, v.At(c, Handle(c, f)));
  }

  /** Where a task is once it has registered an id. */
  function AfterInsert(w: Cast, v: View, c: nat, id: PeerId): Pc {
    if w.unwraps && id !in v.registry then Stopped else Reply(c, RegisterResult(Success))
  }

  lemma Inserts(w: Cast, ips: seq<IpAddr>, v: View, c: nat, id: PeerId)
    requires Reaches(w, ips, v) && c < |ips| && v.pcs[c] == Registering(id)
    requires forall t | 0 <= t < |v.pcs| :: !Guards(v.pcs[t], id)
    ensures Reaches(w, ips, v.At(c, AfterInsert(w, v, c, id)).(registry := v.registry[id := Entry(ips[c], c)]))
  {
    hide Reachable;
    var x :| Reachable(w, x) && Shows(x, ips, v);
    ReachableShape(w, x);
    var m := Relay(Insert(c));
    Extend(w, x, m);
    assert Shows(Moved(w, x, m), ips,
                 v.At(c, AfterInsert(w, v, c, id)).(registry := v.registry[id := Entry(ips[c], c)]));
  }

  /** The sender's task finds the other peer registered. */
  lemma LooksUp(w: Cast, ips: seq<IpAddr>, v: View, id: PeerId) returns (since: nat)
    requires Reaches(w, ips, v) && v.pcs[0] == Probing(id)
    requires id in v.registry && v.registry[id].conn == 1
    ensures Reaches(w, ips, v.At(0, Waiting(1, Command(Sync), Synced(id, v.registry[id], since))))
  {
    hide Reachable;
    var x :| Reachable(w, x) && Shows(x, ips, v);
    ReachableShape(w, x);
    var m := Relay(Lookup(0));
    Extend(w, x, m);
    since := |x.relay.history|;
    assert Shows(Moved(w, x, m), ips, v.At(0, Waiting(1, Command(Sync), Synced(id, v.registry[id], since))));
  }

  /** As `Shows`, but task c holds the lock of stream `to`. */
  ghost predicate ShowsLocked(x: System, ips: seq<IpAddr>, v: View, c: nat, to: nat) {
    && to < |x.relay.locks| && x.relay.locks[to] == Some(c)
    && Shows(x.(relay := x.relay.(locks := x.relay.locks[to := None])), ips, v)
  }

  /** The view once a writer has the lock of stream `to`, and once the octets are out. */
  function Logged(v: View, to: nat, frame: PeerFrame): View
    requires to < |v.logs|
  {
    v.(logs := v.logs[to := v.logs[to] + [frame]])
  }

  function Sent(v: View, to: nat, frame: PeerFrame): View {
    v.(toMe := v.toMe + if to == 0 then EncodePeer(frame) else [])
  }

  function Written(v: View, to: nat, frame: PeerFrame): View
    requires to < |v.logs|
  {
    Sent(Logged(v, to, frame), to, frame)
  }

  /** A task takes a lock, writes its whole frame and goes on. */
  lemma Writes(w: Cast, ips: seq<IpAddr>, v: View, c: nat, to: nat, frame: PeerFrame, next: Then)
    requires Reaches(w, ips, v) && c < |ips| && to < |ips| && v.pcs[c] == Waiting(to, frame, next)
    ensures Reaches(w, ips, Written(v, to, frame).At(c, AfterWrite(c, next)))
  {
    hide EncodePeer, AfterWrite, Reachable;
    var x :| Reachable(w, x) && Shows(x, ips, v);
    ReachableShape(w, x);
    Extend(w, x, Relay(Lock(c)));
    var y := Moved(w, x, Relay(Lock(c)));
    var logged := Logged(v, to, frame);
    assert ShowsLocked(y, ips, logged.At(c, Writing(to, frame, 0, next)), c, to);
    hide Shows, Moved;
    WritesAll(w, ips, y, logged, c, to, frame, next);
  }

  lemma WritesAll(w: Cast, ips: seq<IpAddr>, x: System, v: View, c: nat, to: nat, frame: PeerFrame, next: Then)
    requires w.me == 0 && Reachable(w, x) && |v.pcs| == |v.inbox| == |v.logs| == |ips|
    requires c < |ips| && to < |ips|
    requires ShowsLocked(x, ips, v.At(c, Writing(to, frame, 0, next)), c, to)
    ensures Reaches(w, ips, Sent(v, to, frame).At(c, AfterWrite(c, next)))
  {
    hide EncodePeer, AfterWrite, Reachable;
    ReachableShape(w, x);
    var bytes := EncodePeer(frame);
    var m := Relay(Write(c, |bytes|));
    Extend(w, x, m);
    assert bytes[0..|bytes|] == bytes && v.toMe + [] == v.toMe;
    var v' := Sent(v, to, frame);
    assert ShowsLocked(Moved(w, x, m), ips, v'.At(c, Writing(to, frame, |bytes|, next)), c, to);
    hide Shows, Moved;
    Releases(w, ips, Moved(w, x, m), v', c, to, frame, next);
  }

  lemma Releases(w: Cast, ips: seq<IpAddr>, x: System, v: View, c: nat, to: nat, frame: PeerFrame, next: Then)
    requires w.me == 0 && Reachable(w, x) && |v.pcs| == |v.inbox| == |v.logs| == |ips|
    requires c < |ips| && to < |ips|
    requires ShowsLocked(x, ips, v.At(c, Writing(to, frame, |EncodePeer(frame)|, next)), c, to)
    ensures Reaches(w, ips, v.At(c, AfterWrite(c, next)))
  {
    hide EncodePeer, AfterWrite, Reachable;
    ReachableShape(w, x);
    Extend(w, x, Relay(Release(c)));
    assert Shows(Moved(w, x, Relay(Release(c))), ips, v.At(c, AfterWrite(c, next)));
  }

  /** The acknowledgement is there, and the sender's task reads it. */
  lemma Acknowledged(w: Cast, ips: seq<IpAddr>, v: View, id: PeerId, entry: Entry, since: nat, rtt: Duration)
    requires Reaches(w, ips, v) && v.pcs[0] == Expecting(id, entry, since, [])
    requires entry.conn == 1 && v.inbox[1] == EncodeRelay(ProbeAck)
    ensures Reaches(w, ips, v.On(1, []).At(0, Reply(0, ProbeResult(Some(PeerInfo(id, entry.ip, rtt))))))
  {
    hide EncodeRelay, ParseRelay, Reachable;
    var x :| Reachable(w, x) && Shows(x, ips, v);
    ReachableShape(w, x);
    var bytes := EncodeRelay(ProbeAck);
    var m := Relay(ReadAck(0, |bytes|));
    assert [] + bytes[..|bytes|] == bytes && bytes[|bytes|..] == [];
    NothingParsed();
    Extend(w, x, m);
    var v' := v.On(1, []).At(0, Expecting(id, entry, since, bytes));
    assert Shows(Moved(w, x, m), ips, v');
    hide Shows, Moved;
    ReportsPeer(w, ips, v', id, entry, since, rtt);
    var reply := Reply(0, ProbeResult(Some(PeerInfo(id, entry.ip, rtt))));
    assert v'.At(0, reply) == v.On(1, []).At(0, reply);
  }

  lemma ReportsPeer(w: Cast, ips: seq<IpAddr>, v: View, id: PeerId, entry: Entry, since: nat, rtt: Duration)
    requires Reaches(w, ips, v) && v.pcs[0] == Expecting(id, entry, since, EncodeRelay(ProbeAck))
    ensures Reaches(w, ips, v.At(0, Reply(0, ProbeResult(Some(PeerInfo(id, entry.ip, rtt))))))
  {
    hide EncodeRelay, ParseRelay, Reachable;
    var x :| Reachable(w, x) && Shows(x, ips, v);
    ReachableShape(w, x);
    var m := Relay(TakeAck(0, rtt));
    RelayRoundTrip(ProbeAck, []);
    assert EncodeRelay(ProbeAck) + [] == EncodeRelay(ProbeAck);
    Extend(w, x, m);
    assert Shows(Moved(w, x, m), ips, v.At(0, Reply(0, ProbeResult(Some(PeerInfo(id, entry.ip, rtt))))));
  }

  /** Everything written to the sender reaches it. */
  lemma Receives(w: Cast, ips: seq<IpAddr>, v: View)
    requires Reaches(w, ips, v) && v.taken < |v.toMe|
    ensures Reaches(w, ips, v.(taken := |v.toMe|))
  {
    hide Reachable;
    var x :| Reachable(w, x) && Shows(x, ips, v);
    ReachableShape(w, x);
    var m := Receive(|v.toMe| - v.taken);
    Extend(w, x, m);
    assert Shows(Moved(w, x, m), ips, v.(taken := |v.toMe|));
  }

  // ---------------------------------------------------------------- a whole exchange

  /** No task is in the middle of anything. */
  predicate Resting(v: View) {
    forall t | 0 <= t < |v.pcs| :: v.pcs[t].Listening? || v.pcs[t].Stopped?
  }

  lemma ReachesFits(w: Cast, ips: seq<IpAddr>, v: View)
    requires Reaches(w, ips, v)
    ensures w.me == 0 && |v.pcs| == |v.inbox| == |v.logs| == |ips| > 1
  {}

  /** Another peer registers an id; whether its task survives that is the one difference `unwraps` makes. */
  lemma TheyRegister(w: Cast, ips: seq<IpAddr>, v: View, c: nat, id: PeerId) returns (v': View)
    requires Reaches(w, ips, v) && Resting(v) && 0 < c < |ips| && v.pcs[c] == Listening && v.inbox[c] == []
    ensures |v'.pcs| == |v'.inbox| == |v'.logs| == |v.logs| == |ips|
    ensures var dies := w.unwraps && id !in v.registry;
      v' == v.(registry := v.registry[id := Entry(ips[c], c)],
               logs := if dies then v.logs else v.logs[c := v.logs[c] + [RegisterResult(Success)]])
             .At(c, if dies then Stopped else Listening)
    ensures Reaches(w, ips, v')
  {
    hide Reaches, EncodeRelay;
    ReachesFits(w, ips, v);
    TheySend(w, ips, v, c, Register(id));
    Takes(w, ips, v.On(c, EncodeRelay(Register(id))), c, Register(id));
    var u := v.At(c, Registering(id));
    SameView(v, c, EncodeRelay(Register(id)), Registering(id));
    Inserts(w, ips, u, c, id);
    v' := v.(registry := v.registry[id := Entry(ips[c], c)]);
    var pc := AfterInsert(w, v, c, id);
    assert u.At(c, pc) == v.At(c, pc);
    if pc.Waiting? {
      Writes(w, ips, v'.At(c, pc), c, c, RegisterResult(Success), Replied);
      assert v.toMe + [] == v.toMe;
      v' := v'.(logs := v.logs[c := v.logs[c] + [RegisterResult(Success)]]);
      assert v'.At(c, pc).At(c, Listening) == v'.At(c, Listening);
      v' := v'.At(c, Listening);
    } else {
      v' := v'.At(c, Stopped);
    }
  }

  /** Octets that came and were read leave no trace but what the task does about them. */
  lemma SameView(v: View, c: nat, bytes: seq<byte>, pc: Pc)
    requires c < |v.pcs| && c < |v.inbox| && v.inbox[c] == []
    ensures v.On(c, bytes).On(c, []).At(c, pc) == v.At(c, pc)
  {
    assert v.inbox[c := bytes][c := []] == v.inbox;
  }

  /** The sender registers and hears that it has succeeded. */
  lemma SenderRegisters(w: Cast, ips: seq<IpAddr>, v: View) returns (v': View)
    requires Reaches(w, ips, v) && Resting(v) && v.pcs[0] == Listening && v.inbox[0] == []
    requires v.toMe == [] && v.taken == v.sent == 0
    requires w.unwraps ==> w.source in v.registry
    ensures |v.logs| == |ips| > 1
    ensures v' == v.(registry := v.registry[w.source := Entry(ips[0], 0)],
                     logs := v.logs[0 := v.logs[0] + [RegisterResult(Success)]],
                     toMe := EncodePeer(RegisterResult(Success)), taken := 2, sent := 65)
    ensures Reaches(w, ips, v')
  {
    hide Reaches, EncodeRelay;
    ReachesFits(w, ips, v);
    var f := Register(w.source);
    Sends(w, ips, v);
    v' := v.(sent := 65);
    Takes(w, ips, v'.On(0, EncodeRelay(f)), 0, f);
    SameView(v', 0, EncodeRelay(f), Registering(w.source));
    Inserts(w, ips, v'.At(0, Registering(w.source)), 0, w.source);
    v' := v'.(registry := v.registry[w.source := Entry(ips[0], 0)]);
    var pc := Reply(0, RegisterResult(Success));
    assert v'.At(0, Registering(w.source)).At(0, pc) == v'.At(0, pc);
    Writes(w, ips, v'.At(0, pc), 0, 0, RegisterResult(Success), Replied);
    assert [] + EncodePeer(RegisterResult(Success)) == EncodePeer(RegisterResult(Success));
    v' := v'.(logs := v.logs[0 := v.logs[0] + [RegisterResult(Success)]], toMe := EncodePeer(RegisterResult(Success)));
    assert v'.At(0, pc).At(0, Listening) == v';
    Receives(w, ips, v');
    v' := v'.(taken := 2);
  }

  /** Then it probes, SYNC goes out and comes back acknowledged, and the answer reaches the sender. */
  lemma SenderProbes(w: Cast, ips: seq<IpAddr>, v: View, rtt: Duration) returns (v': View)
    requires Reaches(w, ips, v) && Resting(v) && v.pcs[0] == Listening && v.inbox[0] == v.inbox[1] == []
    requires v.toMe == EncodePeer(RegisterResult(Success)) && v.taken == 2 && v.sent == 65
    requires w.destination in v.registry && v.registry[w.destination] == Entry(ips[1], 1)
    ensures Reaches(w, ips, v') && v'.taken == |v'.toMe|
    ensures v'.toMe == EncodePeer(RegisterResult(Success))
                       + EncodePeer(ProbeResult(Some(PeerInfo(w.destination, ips[1], rtt))))
  {
    hide Reaches, EncodeRelay;
    ReachesFits(w, ips, v);
    var id, entry, found := w.destination, Entry(ips[1], 1), PeerInfo(w.destination, ips[1], rtt);
    Sends(w, ips, v);
    v' := v.(sent := 130);
    Takes(w, ips, v'.On(0, EncodeRelay(Probe(id))), 0, Probe(id));
    SameView(v', 0, EncodeRelay(Probe(id)), Probing(id));
    var since := LooksUp(w, ips, v'.At(0, Probing(id)), id);
    var probing := v'.At(0, Waiting(1, Command(Sync), Synced(id, entry, since)));
    assert v'.At(0, Probing(id)).At(0, probing.pcs[0]) == probing;
    Writes(w, ips, probing, 0, 1, Command(Sync), Synced(id, entry, since));
    assert v.toMe + [] == v.toMe;
    var expecting := Written(v', 1, Command(Sync)).At(0, Expecting(id, entry, since, []));
    assert Written(probing, 1, Command(Sync)).At(0, expecting.pcs[0]) == expecting;
    TheySend(w, ips, expecting, 1, ProbeAck);
    Acknowledged(w, ips, expecting.On(1, EncodeRelay(ProbeAck)), id, entry, since, rtt);
    var replying := expecting.On(1, EncodeRelay(ProbeAck)).On(1, []).At(0, Reply(0, ProbeResult(Some(found))));
    Writes(w, ips, replying, 0, 0, ProbeResult(Some(found)), Replied);
    v' := Written(replying, 0, ProbeResult(Some(found))).At(0, Listening);
    Receives(w, ips, v');
    v' := v'.(taken := |v'.toMe|);
  }

  /** The two right answers make a sender ready. */
  lemma TwoAnswers(info: PeerInfo)
    ensures StageOf(EncodePeer(RegisterResult(Success)) + EncodePeer(ProbeResult(Some(info)))) == Ready(Normal(info))
  {
    hide ParsePeer, EncodePeer, Normal;
    var first, second := RegisterResult(Success), ProbeResult(Some(info));
    PeerRoundTrip(first, EncodePeer(second));
    PeerRoundTrip(second, []);
    assert EncodePeer(second) + [] == EncodePeer(second);
    assert (EncodePeer(first) + EncodePeer(second))[|EncodePeer(first)|..] == EncodePeer(second);
  }

  lemma AllArrived(w: Cast, ips: seq<IpAddr>, v: View, x: System)
    requires w.me == 0 && Reachable(w, x) && Shows(x, ips, v) && v.taken == |v.toMe|
    ensures SystemShape(w, x) && Arrived(w, x) == v.toMe
  {
    hide Reachable, Shape;
    ReachableShape(w, x);
    assert x.relay.outbox[0][..v.taken] == v.toMe;
  }

  /** A view that can be reached belongs to a run. */
  lemma HasArrived(w: Cast, ips: seq<IpAddr>, v: View)
    requires Reaches(w, ips, v) && v.taken == |v.toMe|
    ensures exists systems: seq<System>, moves: seq<Move> ::
      && SystemRun(w, systems, moves) && SystemShape(w, systems[|moves|])
      && systems[|moves|].relay.ips == ips && Arrived(w, systems[|moves|]) == v.toMe
  {
    hide Arrived, Initial, Moved, Possible, SystemShape;
    var x :| Reachable(w, x) && Shows(x, ips, v);
    AllArrived(w, ips, v, x);
    assert x.relay.ips == ips;
    hide Shows;
    var systems, moves :| SystemRun(w, systems, moves) && systems[|moves|] == x;
    assert SystemRun(w, systems, moves) && SystemShape(w, systems[|moves|]);
  }

  /** As line 167 stands, the sender's id must have been registered before, which costs a third connection. */
  lemma Prepared(w: Cast, ips: seq<IpAddr>) returns (v: View)
    requires w.me == 0 && |ips| >= (if w.unwraps then 3 else 2)
    ensures |v.pcs| == |v.inbox| == |v.logs| == |ips| && Reaches(w, ips, v) && Resting(v)
    ensures v.logs[0] == v.logs[1] == []
    ensures v.pcs[0] == v.pcs[1] == Listening && v.inbox[0] == v.inbox[1] == []
    ensures v.toMe == [] && v.taken == v.sent == 0
    ensures w.unwraps ==> w.source in v.registry
  {
    hide Reaches;
    Start(w, ips);
    v := Idle(|ips|);
    if w.unwraps {
      v := TheyRegister(w, ips, v, 2, w.source);
    }
  }

  /**
   For any two ids, any addresses and any round-trip time there is a run on which the sender
   learns the other peer's address from the relay and is ready to connect. With line 167 as
   it stands that takes a third connection, and if the other peer is the first to register
   its id it loses its task over that; its stream stays registered and can still be probed.
   */
  lemma SomeRunConnects(source: PeerId, destination: PeerId, ips: seq<IpAddr>, rtt: Duration, unwraps: bool)
    requires |ips| >= (if unwraps then 3 else 2)
    ensures exists systems: seq<System>, moves: seq<Move> :: var w := Cast(0, source, destination, unwraps);
      && SystemRun(w, systems, moves) && SystemShape(w, systems[|moves|]) && systems[|moves|].relay.ips == ips
      && StageOf(Arrived(w, systems[|moves|])) == Ready(Normal(PeerInfo(destination, ips[1], rtt)))
  {
    hide Arrived, EncodePeer, Normal, Reaches, StageOf, SystemRun, SystemShape;
    var w := Cast(0, source, destination, unwraps);
    var v := Prepared(w, ips);
    v := SenderRegisters(w, ips, v);
    v := TheyRegister(w, ips, v, 1, destination);
    v := SenderProbes(w, ips, v, rtt);
    TwoAnswers(PeerInfo(destination, ips[1], rtt));
    HasArrived(w, ips, v);
  }

  // ---------------------------------------------------------------- a request to connect

  lemma TellsUp(w: Cast, ips: seq<IpAddr>, v: View, c: nat, id: PeerId) returns (since: nat)
    requires Reaches(w, ips, v) && c < |ips| && v.pcs[c] == Telling(id) && id in v.registry
    ensures var entry := v.registry[id];
      Reaches(w, ips, v.At(c, Waiting(entry.conn, Command(ConnectTo(ips[c])), Told(id, entry, since))))
  {
    hide Reachable;
    var x :| Reachable(w, x) && Shows(x, ips, v);
    ReachableShape(w, x);
    var m := Relay(Lookup(c));
    Extend(w, x, m);
    since := |x.relay.history|;
    var entry := v.registry[id];
    assert Shows(Moved(w, x, m), ips, v.At(c, Waiting(entry.conn, Command(ConnectTo(ips[c])), Told(id, entry, since))));
  }

  /** Another peer asks to connect to the sender: the command goes to the sender, then success to the other. */
  lemma TheyConnect(w: Cast, ips: seq<IpAddr>, v: View) returns (v': View)
    requires Reaches(w, ips, v) && v.pcs[1] == Listening && v.inbox[1] == []
    requires w.source in v.registry && v.registry[w.source].conn == 0
    ensures |v.logs| == |ips| > 1 && Reaches(w, ips, v')
    ensures v'.toMe == v.toMe + EncodePeer(Command(ConnectTo(ips[1])))
    ensures v'.logs == v.logs[0 := v.logs[0] + [Command(ConnectTo(ips[1]))]]
                             [1 := v.logs[1] + [DoConnectResult(Success)]]
  {
    hide Reaches, EncodeRelay, EncodePeer;
    ReachesFits(w, ips, v);
    var id, command := w.source, Command(ConnectTo(ips[1]));
    TheySend(w, ips, v, 1, DoConnect(id));
    Takes(w, ips, v.On(1, EncodeRelay(DoConnect(id))), 1, DoConnect(id));
    SameView(v, 1, EncodeRelay(DoConnect(id)), Telling(id));
    var since := TellsUp(w, ips, v.At(1, Telling(id)), 1, id);
    var next := Told(id, v.registry[id], since);
    var telling := v.At(1, Waiting(0, command, next));
    assert v.At(1, Telling(id)).At(1, Waiting(0, command, next)) == telling;
    Writes(w, ips, telling, 1, 0, command, next);
    v' := Written(telling, 0, command).At(1, Reply(1, DoConnectResult(Success)));
    Writes(w, ips, v', 1, 1, DoConnectResult(Success), Replied);
    v' := Written(v', 1, DoConnectResult(Success)).At(1, Listening);
    assert v'.toMe == v.toMe + EncodePeer(command) + [];
  }

  lemma ConnectRun(w: Cast, ips: seq<IpAddr>) returns (v: View)
    requires w.me == 0 && |ips| >= (if w.unwraps then 3 else 2)
    ensures |v.logs| == |ips| && Reaches(w, ips, v)
    ensures v.toMe == EncodePeer(RegisterResult(Success)) + EncodePeer(Command(ConnectTo(ips[1])))
    ensures v.logs[0] == [RegisterResult(Success), Command(ConnectTo(ips[1]))]
    ensures v.logs[1] == [DoConnectResult(Success)]
  {
    hide Reaches, EncodePeer;
    v := Prepared(w, ips);
    v := SenderRegisters(w, ips, v);
    v := TheyConnect(w, ips, v);
  }

  /**
   For any id and any addresses there is a run on which a request to connect to a registered
   peer succeeds: the command with the requester's address is on the peer's stream, and the
   requester is told so.
   */
  lemma SomeConnectSucceeds(id: PeerId, ips: seq<IpAddr>, unwraps: bool)
    requires |ips| >= (if unwraps then 3 else 2)
    ensures exists systems: seq<System>, moves: seq<Move> :: var w := Cast(0, id, id, unwraps);
      && SystemRun(w, systems, moves)
      && var s := systems[|moves|].relay;
      && s.ips == ips && |s.logs| == |s.outbox| == |ips|
      && s.logs[0] == [RegisterResult(Success), Command(ConnectTo(ips[1]))]
      && s.outbox[0] == [21, 200] + EncodePeer(Command(ConnectTo(ips[1])))
      && s.logs[1] == [DoConnectResult(Success)]
  {
    hide Reaches, EncodePeer, SystemRun;
    var w := Cast(0, id, id, unwraps);
    Codes(id, Zeros(4), Zeros(16));
    var v := ConnectRun(w, ips);
    HasLogs(w, ips, v);
  }

  lemma HasLogs(w: Cast, ips: seq<IpAddr>, v: View)
    requires Reaches(w, ips, v)
    ensures exists systems: seq<System>, moves: seq<Move> ::
      && SystemRun(w, systems, moves)
      && var s := systems[|moves|].relay;
      s.ips == ips && |s.logs| == |s.outbox| == |ips| > 1 && s.logs == v.logs && s.outbox[0] == v.toMe
  {
    hide Arrived, Initial, Moved, Possible, SystemShape;
    var x :| Reachable(w, x) && Shows(x, ips, v);
    var systems, moves :| SystemRun(w, systems, moves) && systems[|moves|] == x;
    assert SystemRun(w, systems, moves);
  }
}
