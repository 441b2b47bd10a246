/**
 One sender, on connection `me`, together with the relay and with peers that may do
 anything on all other connections. The sender's octets reach the relay, and the relay's
 reach it, in order and in pieces of any size.
 */
module WholeSystem {
  import opened Bytes
  import opened FrameAtomicity
  import opened FrameReader
  import opened Peers
  import opened ProbeHistory
  import opened RelayFrames
  import opened RelaySystem
  import opened RequestReply
  import opened Sender

  /** Who is who. */
  datatype Cast = Cast(me: nat, source: PeerId, destination: PeerId, unwraps: bool)

  /** All the sender ever writes. */
  function Script(w: Cast): (s: seq<byte>)
    ensures |s| == 130
  {
    EncodeRelay(Register(w.source)) + EncodeRelay(Probe(w.destination))
  }

  /** `taken` octets of the sender's stream have reached it, and it has written `sent` octets. */
  datatype System = System(relay: State, taken: nat, sent: nat)

  datatype Move =
    | Relay(a: Action)
    | Send(n: nat)
    | Receive(n: nat)

  predicate SystemShape(w: Cast, x: System) {
    && Shape(x.relay) && w.me < |x.relay.ips|
    && x.taken <= |x.relay.outbox[w.me]| && x.sent <= 130
  }

  function Arrived(w: Cast, x: System): seq<byte>
    requires SystemShape(w, x)
  {
    x.relay.outbox[w.me][..x.taken]
  }

  /** The sender writes its second frame only once the first has been answered with success. */
  predicate Possible(w: Cast, x: System, m: Move)
    requires SystemShape(w, x)
  {
    match m
    case Relay(a) => Can(x.relay, a) && !(a.Deliver? && a.c == w.me)
    case Send(n) =>
      && 0 < n <= 130 - x.sent
      && (x.sent + n <= 65 || RegistrationAnswered(Arrived(w, x)))
    case Receive(n) => 0 < n <= |x.relay.outbox[w.me]| - x.taken
  }

  /** The step the relay sees in a move, if it sees one. */
  function RelayStep(w: Cast, x: System, m: Move): Action
    requires SystemShape(w, x) && Possible(w, x, m) && !m.Receive?
  {
    match m
    case Relay(a) => a
    case Send(n) => Deliver(w.me, Script(w)[x.sent..x.sent + n])
  }

  function Moved(w: Cast, x: System, m: Move): System
    requires SystemShape(w, x) && Possible(w, x, m)
  {
    match m
    case Receive(n) => x.(taken := x.taken + n)
    case Relay(a) => x.(relay := Do(x.relay, a, w.unwraps))
    case Send(n) => x.(relay := Do(x.relay, RelayStep(w, x, m), w.unwraps), sent := x.sent + n)
  }

  ghost predicate SystemRun(w: Cast, systems: seq<System>, moves: seq<Move>) {
    && |systems| == |moves| + 1
    && Initial(systems[0].relay) && w.me < |systems[0].relay.ips| && systems[0].taken == systems[0].sent == 0
    && forall i | 0 <= i < |moves| ::
         SystemShape(w, systems[i]) && Possible(w, systems[i], moves[i])
         && systems[i + 1] == Moved(w, systems[i], moves[i])
  }

  // ---------------------------------------------------------------- nobody else reads before SYNC

  /** Where a task may be, given what has been put on the streams. */
  ghost predicate PlaceAnnounced(pc: Pc, logs: seq<seq<PeerFrame>>) {
    match pc
    case Expecting(_, entry, _, _) => entry.conn < |logs| && Command(Sync) in logs[entry.conn]
    case Writing(to, _, _, Synced(_, _, _)) => to < |logs| && Command(Sync) in logs[to]
    case _ => true
  }

  /** Whoever may read acknowledgements from a stream has had SYNC put on it. */
  ghost predicate Announced(s: State)
    requires Shape(s)
  {
    forall c | 0 <= c < |s.ips| :: PlaceAnnounced(s.pcs[c], s.logs)
  }

  lemma StepAnnounced(s: State, a: Action, unwraps: bool)
    requires Shape(s) && Can(s, a) && Announced(s) && Shape(Do(s, a, unwraps))
    requires Do(s, a, unwraps).ips == s.ips
    ensures Announced(Do(s, a, unwraps))
  {
    hide Can, Do;
    var t := Do(s, a, unwraps);
    LogsGrow(s, a, unwraps);
    StepNews(s, a, unwraps);
    OwnPlace(s, a, unwraps);
    hide Shape, News;
    forall c | 0 <= c < |t.ips|
      ensures PlaceAnnounced(t.pcs[c], t.logs)
    {
      assert PlaceAnnounced(s.pcs[c], s.logs);
    }
  }

  lemma OwnPlace(s: State, a: Action, unwraps: bool)
    requires Shape(s) && Can(s, a) && PlaceAnnounced(s.pcs[a.c], s.logs)
    ensures PlaceAnnounced(Do(s, a, unwraps).pcs[a.c], Do(s, a, unwraps).logs)
  {
    hide ParseRelay, EncodePeer;
    assert PcShape(s.pcs[a.c], a.c, |s.ips|, s.ips[a.c]);
  }

  ghost predicate RelayInv(s: State) {
    Shape(s) && Atomic(s) && Honest(s) && Orderly(s) && Announced(s)
  }

  lemma StepRelayInv(s: State, a: Action, unwraps: bool)
    requires RelayInv(s) && Can(s, a)
    ensures RelayInv(Do(s, a, unwraps)) && Do(s, a, unwraps).ips == s.ips
  {
    hide Shape, Atomic, Honest, Orderly, Announced, Can, Do;
    StepShape(s, a, unwraps);
    StepAtomic(s, a, unwraps);
    StepHonest(s, a, unwraps);
    StepOrderly(s, a, unwraps);
    StepAnnounced(s, a, unwraps);
  }

  lemma InitialRelayInv(s: State)
    requires Initial(s)
    ensures RelayInv(s)
  {
    InitialShape(s);
    InitialAtomic(s);
    InitialHonest(s);
    InitialOrderly(s);
  }

  // ---------------------------------------------------------------- what the relay reads from the sender

  /**
   As long as no SYNC has been put on the sender's stream, the requests its task has parsed,
   that task's buffer and the unread octets are together what the sender wrote.
   */
  ghost predicate Undisturbed(w: Cast, s: State, sent: nat)
    requires Shape(s) && w.me < |s.ips|
  {
    Command(Sync) !in s.logs[w.me] ==>
      && sent <= 130
      && EncodeAll(EncodeRelay, Requests(s.history, w.me)) + s.buffers[w.me] + s.inbox[w.me] == Script(w)[..sent]
  }

  /** Where the octets of one connection's input are after a step other than its peer's sending. */
  lemma InputKept(s: State, a: Action, unwraps: bool, c: nat)
    requires Shape(s) && Can(s, a) && c < |s.ips| && !(a.Deliver? && a.c == c)
    requires Shape(Do(s, a, unwraps)) && Do(s, a, unwraps).ips == s.ips
    requires !(a.ReadAck? && s.pcs[a.c].entry.conn == c)
    ensures var t := Do(s, a, unwraps);
      EncodeAll(EncodeRelay, Requests(t.history, c)) + t.buffers[c] + t.inbox[c]
      == EncodeAll(EncodeRelay, Requests(s.history, c)) + s.buffers[c] + s.inbox[c]
  {
    hide ParseRelay, EncodeRelay, EncodeAll, EncodePeer, Requests, News;
    StepInput(s, a, unwraps, c);
    StepNews(s, a, unwraps);
    StepRequests(s, a, c);
    var q, b, i := Requests(s.history, c), s.buffers[c], s.inbox[c];
    if a.Read? && a.c == c {
      assert a.n <= |i|;
      hide Do, Can, Shape;
      assert EncodeAll(EncodeRelay, q) + (b + i[..a.n]) + i[a.n..] == EncodeAll(EncodeRelay, q) + b + i;
      assert q + [] == q;
    } else {
      hide Do, Can, Shape;
      if a.Take? && a.c == c && ParseRelay(b).Done? {
        TakenFrame(q, b);
      } else {
        assert q + [] == q;
      }
    }
  }

  lemma StepUndisturbed(w: Cast, s: State, a: Action, sent: nat)
    requires RelayInv(s) && Can(s, a) && w.me < |s.ips| && Undisturbed(w, s, sent)
    requires !(a.Deliver? && a.c == w.me)
    requires Shape(Do(s, a, w.unwraps)) && Do(s, a, w.unwraps).ips == s.ips
    ensures Undisturbed(w, Do(s, a, w.unwraps), sent)
  {
    hide ParseRelay, EncodeRelay, EncodeAll, EncodePeer, Requests, Script, Atomic, Honest, Orderly;
    LogsGrow(s, a, w.unwraps);
    if Command(Sync) !in s.logs[w.me] {
      assert a.c < |s.ips|;
      assert !(a.ReadAck? && s.pcs[a.c].entry.conn == w.me);
      InputKept(s, a, w.unwraps, w.me);
      hide Do, Can, Shape, Announced;
    }
  }

  lemma SendUndisturbed(w: Cast, s: State, sent: nat, n: nat)
    requires Shape(s) && w.me < |s.ips| && Undisturbed(w, s, sent) && 0 < n <= 130 - sent
    ensures var a := Deliver(w.me, Script(w)[sent..sent + n]);
      Can(s, a) && (Shape(Do(s, a, w.unwraps)) ==> Undisturbed(w, Do(s, a, w.unwraps), sent + n))
  {
    hide EncodeAll, EncodeRelay, Script, Requests;
    var a := Deliver(w.me, Script(w)[sent..sent + n]);
    var t := Do(s, a, w.unwraps);
    if Shape(t) && Command(Sync) !in s.logs[w.me] {
      var q, b, i := Requests(s.history, w.me), s.buffers[w.me], s.inbox[w.me];
      assert EncodeAll(EncodeRelay, q) + b + (i + a.bytes) == EncodeAll(EncodeRelay, q) + b + i + a.bytes;
      assert Script(w)[..sent] + a.bytes == Script(w)[..sent + n];
    }
  }

  /** What a task parses out of an undisturbed prefix of the script is a prefix of the sender's two frames. */
  lemma ScriptRequests(w: Cast, q: seq<RelayFrame>, rest: seq<byte>)
    requires EncodeAll(EncodeRelay, q) + rest == Script(w)
    ensures |q| <= 2
    ensures |q| >= 1 ==> q[0] == Register(w.source)
    ensures |q| >= 2 ==> q[1] == Probe(w.destination)
  {
    hide ParseRelay, EncodeRelay, EncodeAll;
    if q != [] {
      var tail := EncodeAll(EncodeRelay, q[1..]) + rest;
      EncodeAllFirst(EncodeRelay, q);
      assert EncodeRelay(q[0]) + tail == Script(w);
      SameFirst(q[0], tail, Register(w.source), EncodeRelay(Probe(w.destination)));
      if |q| >= 2 {
        var more := EncodeAll(EncodeRelay, q[2..]) + rest;
        EncodeAllFirst(EncodeRelay, q[1..]);
        assert q[1..][1..] == q[2..];
        assert EncodeRelay(q[1]) + more == EncodeRelay(Probe(w.destination)) + [];
        SameFirst(q[1], more, Probe(w.destination), []);
        if |q| >= 3 {
          EncodeAllFirst(EncodeRelay, q[2..]);
        }
      }
    }
  }

  /** Two frames that start the same octets are the same frame. */
  lemma SameFirst(f: RelayFrame, tail: seq<byte>, g: RelayFrame, rest: seq<byte>)
    requires EncodeRelay(f) + tail == EncodeRelay(g) + rest
    ensures f == g && tail == rest
  {
    hide ParseRelay, EncodeRelay;
    RelayRoundTrip(f, tail);
    RelayRoundTrip(g, rest);
    assert tail == (EncodeRelay(f) + tail)[|EncodeRelay(f)|..];
    assert rest == (EncodeRelay(g) + rest)[|EncodeRelay(g)|..];
  }

  lemma UndisturbedRequests(w: Cast, s: State, sent: nat)
    requires Shape(s) && w.me < |s.ips| && Undisturbed(w, s, sent) && Command(Sync) !in s.logs[w.me]
    ensures var q := Requests(s.history, w.me);
      && |q| <= 2
      && (|q| >= 1 ==> q[0] == Register(w.source))
      && (|q| >= 2 ==> q[1] == Probe(w.destination))
  {
    hide EncodeAll, EncodeRelay, Script, Requests;
    var q, b, i := Requests(s.history, w.me), s.buffers[w.me], s.inbox[w.me];
    assert EncodeAll(EncodeRelay, q) + (b + i + Script(w)[sent..])
        == EncodeAll(EncodeRelay, q) + b + i + Script(w)[sent..] == Script(w);
    ScriptRequests(w, q, b + i + Script(w)[sent..]);
  }

  // ---------------------------------------------------------------- the sender's story

  /** The registration of the sender's own id, as the relay must have recorded it. */
  function Registration(w: Cast, s: State): Event
    requires w.me < |s.ips|
  {
    Inserted(w.me, w.source, Entry(s.ips[w.me], w.me))
  }

  /** The k-th event is a successful probe of the destination for the sender, begun after its registration. */
  ghost predicate GoalAt(w: Cast, h: seq<Event>, registration: Event, info: PeerInfo, k: nat) {
    && k < |h| && h[k].ProbeOk? && h[k].task == w.me && h[k].id == w.destination && h[k].info == info
    && h[k].since <= k && registration in h[..h[k].since]
  }

  ghost predicate Goal(w: Cast, h: seq<Event>, registration: Event, info: PeerInfo) {
    exists k: nat :: GoalAt(w, h, registration, info, k)
  }

  /** The first frame written to the sender says that it is registered. */
  predicate Welcomed(log: seq<PeerFrame>) {
    log != [] && log[0] == RegisterResult(Success)
  }

  /** ... and the second describes a peer. */
  predicate Introduced(log: seq<PeerFrame>) {
    Welcomed(log) && |log| >= 2 && log[1].ProbeResult? && log[1].info.Some?
  }

  /** A probe under way, and where it began. */
  function Call(pc: Pc): Option<(PeerId, nat)> {
    match pc
    case Waiting(_, _, Synced(id, _, since)) => Some((id, since))
    case Writing(_, _, _, Synced(id, _, since)) => Some((id, since))
    case Expecting(id, _, since, _) => Some((id, since))
    case _ => None
  }

  ghost predicate Story(w: Cast, s: State)
    requires Shape(s) && w.me < |s.ips|
  {
    var log, h, pc, registration := s.logs[w.me], s.history, s.pcs[w.me], Registration(w, s);
    && (log == [] && pc.Waiting? && pc.next.Replied? && pc.frame == RegisterResult(Success) ==> registration in h)
    && (Welcomed(log) ==> registration in h)
    && (Welcomed(log) && |log| == 1 && Call(pc).Some? ==>
          Call(pc).value.0 == w.destination && Call(pc).value.1 < |h| && registration in h[..Call(pc).value.1])
    && (Welcomed(log) && |log| == 1 && pc.Waiting? && pc.next.Replied?
        && pc.frame.ProbeResult? && pc.frame.info.Some? ==>
          Goal(w, h, registration, pc.frame.info.value))
    && (Introduced(log) ==> Goal(w, h, registration, log[1].info.value))
  }

  lemma GoalKept(w: Cast, h: seq<Event>, news: seq<Event>, registration: Event, info: PeerInfo)
    requires Goal(w, h, registration, info)
    ensures Goal(w, h + news, registration, info)
  {
    var k: nat :| GoalAt(w, h, registration, info, k);
    assert (h + news)[..h[k].since] == h[..h[k].since];
    assert GoalAt(w, h + news, registration, info, k);
  }

  /** More history does not change a story that no step of the sender's task or lock has moved. */
  lemma StoryKept(w: Cast, s: State, t: State, news: seq<Event>)
    requires Shape(s) && Shape(t) && s.ips == t.ips && w.me < |s.ips| && Story(w, s)
    requires t.history == s.history + news
    requires t.logs[w.me] == s.logs[w.me]
    requires t.pcs[w.me] == s.pcs[w.me] || (Call(t.pcs[w.me]) == Call(s.pcs[w.me]) && !t.pcs[w.me].Waiting?)
    ensures Story(w, t)
  {
    hide Goal;
    var log, pc, registration := s.logs[w.me], t.pcs[w.me], Registration(w, s);
    if Call(pc).Some? && Call(pc).value.1 < |s.history| {
      assert t.history[..Call(pc).value.1] == s.history[..Call(pc).value.1];
    }
    if Introduced(log) {
      GoalKept(w, s.history, news, registration, log[1].info.value);
    }
    if pc.Waiting? && pc.frame.ProbeResult? && pc.frame.info.Some?
       && Goal(w, s.history, registration, pc.frame.info.value)
    {
      GoalKept(w, s.history, news, registration, pc.frame.info.value);
    }
  }

  /** A frame added to the sender's stream by anyone. */
  lemma StoryLock(w: Cast, s: State, a: Action)
    requires RelayInv(s) && Can(s, a) && a.Lock? && w.me < |s.ips| && Story(w, s)
    requires Shape(Do(s, a, w.unwraps))
    ensures Story(w, Do(s, a, w.unwraps))
  {
    hide EncodePeer, ParseRelay, Goal, Atomic, Honest, Orderly, Announced;
    assert PcShape(s.pcs[a.c], a.c, |s.ips|, s.ips[a.c]);
  }

  /** The sender's task is about to register the sender's id, if this is the first reply. */
  lemma StoryInsert(w: Cast, s: State, a: Action, sent: nat)
    requires RelayInv(s) && Can(s, a) && a == Insert(w.me) && w.me < |s.ips|
    requires Story(w, s) && Undisturbed(w, s, sent)
    requires Shape(Do(s, a, w.unwraps))
    ensures Story(w, Do(s, a, w.unwraps))
  {
    hide EncodePeer, ParseRelay, Goal, Atomic, Honest, Announced, Undisturbed, Requests, Turns, Answered;
    var t, c := Do(s, a, w.unwraps), w.me;
    assert SettledIn(s, c);
    TurnsAreRequests(s.history, c);
    if s.logs[c] == [] {
      UndisturbedRequests(w, s, sent);
      assert t.history[|s.history|] == Registration(w, s);
    }
    if Introduced(s.logs[c]) {
      var news := [Inserted(c, s.pcs[c].id, Entry(s.ips[c], c))];
      GoalKept(w, s.history, news, Registration(w, s), s.logs[c][1].info.value);
    }
  }

  /** The sender's task looks up the destination, if it has answered the registration only. */
  lemma StoryLookup(w: Cast, s: State, a: Action, sent: nat)
    requires RelayInv(s) && Can(s, a) && a == Lookup(w.me) && w.me < |s.ips|
    requires Story(w, s) && Undisturbed(w, s, sent)
    requires Shape(Do(s, a, w.unwraps))
    ensures Story(w, Do(s, a, w.unwraps))
  {
    hide EncodePeer, ParseRelay, Goal, Atomic, Honest, Announced, Undisturbed, Requests, Turns, Answered;
    var t, c := Do(s, a, w.unwraps), w.me;
    var log := s.logs[c];
    if Welcomed(log) && |log| == 1 {
      ProbesDestination(w, s, sent);
      assert t.history[..|s.history|] == s.history;
    }
    hide Orderly;
    StepNews(s, a, w.unwraps);
    if Introduced(log) {
      GoalKept(w, s.history, News(s, a), Registration(w, s), log[1].info.value);
    }
  }

  /** Once welcomed, the sender's task can only be probing the destination. */
  lemma ProbesDestination(w: Cast, s: State, sent: nat)
    requires RelayInv(s) && w.me < |s.ips| && Undisturbed(w, s, sent)
    requires Welcomed(s.logs[w.me]) && |s.logs[w.me]| == 1
    ensures s.pcs[w.me].Probing? ==> s.pcs[w.me].id == w.destination
  {
    hide EncodePeer, Atomic, Honest, Announced, Undisturbed, Requests, Turns, Answered;
    var log := s.logs[w.me];
    assert SettledIn(s, w.me);
    TurnsAreRequests(s.history, w.me);
    assert log == [] + [log[0]];
    RepliesOne([], log[0]);
    UndisturbedRequests(w, s, sent);
  }

  /** The sender's probe has been acknowledged. */
  lemma StoryTakeAck(w: Cast, s: State, a: Action)
    requires RelayInv(s) && Can(s, a) && a.TakeAck? && a.c == w.me && w.me < |s.ips| && Story(w, s)
    requires Shape(Do(s, a, w.unwraps))
    ensures Story(w, Do(s, a, w.unwraps))
  {
    hide EncodePeer, ParseRelay, Goal, Atomic, Honest, Orderly, Announced;
    var t, c := Do(s, a, w.unwraps), w.me;
    var log, h, pc := s.logs[c], s.history, s.pcs[c];
    StepNews(s, a, w.unwraps);
    var news := News(s, a);
    if Introduced(log) {
      GoalKept(w, h, news, Registration(w, s), log[1].info.value);
    }
    if Welcomed(log) && |log| == 1 && |news| == 2 {
      assert t.history[..pc.since] == h[..pc.since];
      assert t.history[|h| + 1] == news[1];
      assert GoalAt(w, t.history, Registration(w, s), news[1].info, |h| + 1);
      GoalReached(w, t.history, Registration(w, s), news[1].info, |h| + 1);
    }
  }

  lemma GoalReached(w: Cast, h: seq<Event>, registration: Event, info: PeerInfo, k: nat)
    requires GoalAt(w, h, registration, info, k)
    ensures Goal(w, h, registration, info)
  {}

  lemma StepStory(w: Cast, s: State, a: Action, sent: nat)
    requires RelayInv(s) && Can(s, a) && w.me < |s.ips| && Story(w, s) && Undisturbed(w, s, sent)
    requires Shape(Do(s, a, w.unwraps)) && Do(s, a, w.unwraps).ips == s.ips
    ensures Story(w, Do(s, a, w.unwraps))
  {
    hide EncodePeer, ParseRelay, Atomic, Honest, Orderly, Announced, Undisturbed, Story, News;
    var t := Do(s, a, w.unwraps);
    StepNews(s, a, w.unwraps);
    LogsGrow(s, a, w.unwraps);
    if a.Lock? {
      StoryLock(w, s, a);
    } else if a == Insert(w.me) {
      StoryInsert(w, s, a, sent);
    } else if a == Lookup(w.me) {
      StoryLookup(w, s, a, sent);
    } else if a.TakeAck? && a.c == w.me {
      StoryTakeAck(w, s, a);
    } else if a.c != w.me {
      StoryKept(w, s, t, News(s, a));
    } else {
      StoryQuiet(w, s, a);
    }
  }

  /** The other steps of the sender's task start nothing that the story tells. */
  lemma StoryQuiet(w: Cast, s: State, a: Action)
    requires RelayInv(s) && Can(s, a) && a.c == w.me && w.me < |s.ips| && Story(w, s)
    requires !a.Lock? && !a.Insert? && !a.Lookup? && !a.TakeAck?
    requires Shape(Do(s, a, w.unwraps)) && Do(s, a, w.unwraps).ips == s.ips
    ensures Story(w, Do(s, a, w.unwraps))
  {
    hide EncodePeer, ParseRelay, Goal, Atomic, Honest, Orderly, Announced, News;
    var t, c := Do(s, a, w.unwraps), w.me;
    StepNews(s, a, w.unwraps);
    LogsGrow(s, a, w.unwraps);
    var log, h, pc := s.logs[c], s.history, t.pcs[c];
    if Call(pc).Some? && Call(pc).value.1 < |h| {
      assert t.history[..Call(pc).value.1] == h[..Call(pc).value.1];
    }
    if Introduced(log) {
      GoalKept(w, h, News(s, a), Registration(w, s), log[1].info.value);
    }
  }

  // ---------------------------------------------------------------- what the sender makes of its stream

  lemma ReadyKept(bytes: seq<byte>, more: seq<byte>)
    requires StageOf(bytes).Ready?
    ensures StageOf(bytes + more) == StageOf(bytes)
  {
    hide ParsePeer;
    PeerVerdictKept(bytes, more);
    var used := ParsePeer(bytes).used;
    assert (bytes + more)[used..] == bytes[used..] + more;
    PeerVerdictKept(bytes[used..], more);
  }

  /** A sender that is ready has been sent a successful registration and then a peer. */
  lemma ReadyIsIntroduced(log: seq<PeerFrame>)
    requires StageOf(EncodeAll(EncodePeer, log)).Ready?
    ensures Introduced(log)
    ensures Normal(log[1].info.value) == StageOf(EncodeAll(EncodePeer, log)).info
  {
    hide ParsePeer, EncodePeer, Normal, EncodeAll;
    var bytes := EncodeAll(EncodePeer, log);
    FirstFrame(log);
    var rest := EncodeAll(EncodePeer, log[1..]);
    assert bytes[|EncodePeer(log[0])|..] == rest;
    assert log[0] == RegisterResult(Success);
    FirstFrame(log[1..]);
    assert log[1..][0] == log[1];
  }

  /** The first frame parsed from a log's octets is the first frame of the log, or a shortened command. */
  lemma FirstFrame(log: seq<PeerFrame>)
    requires ParsePeer(EncodeAll(EncodePeer, log)).Done?
    ensures log != []
    ensures EncodeAll(EncodePeer, log) == EncodePeer(log[0]) + EncodeAll(EncodePeer, log[1..])
    ensures var parsed := ParsePeer(EncodeAll(EncodePeer, log));
      if TooLong(log[0]) then parsed.value.Command?
      else parsed == Done(NormalFrame(log[0]), |EncodePeer(log[0])|)
  {
    assert log == [] ==> EncodeAll(EncodePeer, log) == [];
    hide EncodePeer, NormalFrame, EncodeAll;
    EncodeAllFirst(EncodePeer, log);
    PeerRoundTrip(log[0], EncodeAll(EncodePeer, log[1..]));
  }

  /** What has been put on a stream is a prefix of its log's octets. */
  lemma OutboxIsPrefix(s: State, c: nat)
    requires Shape(s) && Atomic(s) && c < |s.ips|
    ensures s.outbox[c] <= EncodeAll(EncodePeer, s.logs[c])
  {
    hide EncodePeer;
    assert StreamOk(s, c);
    if s.locks[c].Some? {
      var t, log := s.locks[c].value, s.logs[c];
      var n := |log| - 1;
      var frame, sent := EncodePeer(s.pcs[t].frame), s.pcs[t].sent;
      assert frame == frame[..sent] + frame[sent..];
      assert EncodeAll(EncodePeer, log) == s.outbox[c] + frame[sent..];
    }
  }

  lemma ReadyMeansGoal(w: Cast, x: System)
    requires SystemShape(w, x) && Atomic(x.relay) && Story(w, x.relay)
    requires StageOf(Arrived(w, x)).Ready?
    ensures Introduced(x.relay.logs[w.me])
    ensures var info := x.relay.logs[w.me][1].info.value;
      Normal(info) == StageOf(Arrived(w, x)).info && Goal(w, x.relay.history, Registration(w, x.relay), info)
  {
    hide StageOf, EncodeAll, EncodePeer, Normal, Goal, Atomic;
    OutboxIsPrefix(x.relay, w.me);
    var all := EncodeAll(EncodePeer, x.relay.logs[w.me]);
    var arrived := Arrived(w, x);
    assert all == arrived + all[|arrived|..];
    ReadyKept(arrived, all[|arrived|..]);
    ReadyIsIntroduced(x.relay.logs[w.me]);
  }

  // ---------------------------------------------------------------- runs of the whole system

  ghost predicate SystemInv(w: Cast, x: System) {
    SystemShape(w, x) && RelayInv(x.relay) && Story(w, x.relay) && Undisturbed(w, x.relay, x.sent)
  }

  lemma OutboxGrows(s: State, a: Action, unwraps: bool, c: nat)
    requires Shape(s) && Can(s, a) && c < |s.ips|
    ensures |Do(s, a, unwraps).outbox| == |s.outbox| && |s.outbox[c]| <= |Do(s, a, unwraps).outbox[c]|
  {
    hide ParseRelay, EncodePeer;
  }

  lemma StepSystemInv(w: Cast, x: System, m: Move)
    requires SystemInv(w, x) && Possible(w, x, m)
    ensures SystemInv(w, Moved(w, x, m))
  {
    hide Story, Undisturbed, Script, Can, Do, StageOf, Atomic, Honest, Orderly, Announced;
    match m {
      case Receive(_) =>
      case Relay(a) =>
        StepRelayInv(x.relay, a, w.unwraps);
        OutboxGrows(x.relay, a, w.unwraps, w.me);
        StepStory(w, x.relay, a, x.sent);
        assert RelayInv(x.relay);
        StepUndisturbed(w, x.relay, a, x.sent);
      case Send(n) =>
        SendUndisturbed(w, x.relay, x.sent, n);
        var a := RelayStep(w, x, m);
        StepRelayInv(x.relay, a, w.unwraps);
        OutboxGrows(x.relay, a, w.unwraps, w.me);
        StepStory(w, x.relay, a, x.sent);
    }
  }

  lemma InitialSystemInv(w: Cast, x: System)
    requires Initial(x.relay) && w.me < |x.relay.ips| && x.taken == x.sent == 0
    ensures SystemInv(w, x)
  {
    InitialRelayInv(x.relay);
    assert EncodeAll(EncodeRelay, []) == [];
  }

  lemma {:induction false} AlwaysSystemInv(w: Cast, systems: seq<System>, moves: seq<Move>, i: nat)
    requires SystemRun(w, systems, moves) && i < |systems|
    ensures SystemInv(w, systems[i])
  {
    hide SystemInv, SystemShape, Possible, Moved;
    if i == 0 {
      InitialSystemInv(w, systems[0]);
    } else {
      AlwaysSystemInv(w, systems, moves, i - 1);
      StepSystemInv(w, systems[i - 1], moves[i - 1]);
    }
  }

  /**
   The k-th event reports to the sender, registered before, the peer it asked for: found
   registered, sent SYNC, acknowledged, and under no other than its latest registration's
   entry all the while. The address is that of the connection which acknowledged, and what
   the sender has found is that peer, as a record keeps it.
   */
  ghost predicate Connected(w: Cast, s: State, found: PeerInfo, k: nat)
    requires w.me < |s.ips|
  {
    var h := s.history;
    && k < |h| && h[k].ProbeOk?
    && var p := h[k];
    && p.task == w.me && p.id == w.destination
    && p.since < k && Registration(w, s) in h[..p.since]
    && Own(h[p.since..k + 1], w.me) ==
         [Found(w.me, w.destination, p.entry), Wrote(w.me, p.entry.conn, Command(Sync)),
          Acked(w.me, p.entry.conn, ProbeAck), p]
    && (forall j | p.since <= j <= k :: Latest(h[..j], w.destination, p.entry))
    && p.entry.conn < |s.ips| && p.info.ip == p.entry.ip == s.ips[p.entry.conn]
    && found == Normal(p.info)
  }

  lemma GoalConnects(w: Cast, s: State, info: PeerInfo, found: PeerInfo, k: nat)
    requires Shape(s) && Honest(s) && w.me < |s.ips| && found == Normal(info)
    requires GoalAt(w, s.history, Registration(w, s), info, k)
    ensures Connected(w, s, found, k)
  {
    hide Shape, Kept, Own, Latest, Truthful;
    var h := s.history;
    assert PastOk(h, k);
    KeptIsLatest(h, s.ips, h[k].since, k, h[k].id, h[k].entry);
  }

  /**
   Whole-system safety. On every run, whatever all other peers do, a sender that has what
   it needs to connect was registered by the relay under its own id; after that the relay
   found the destination registered, had SYNC written to the destination's stream, read a
   ProbeAck from that stream, and reported the address the destination had registered from.
   */
  lemma ReadyMeansConnected(w: Cast, systems: seq<System>, moves: seq<Move>, i: nat)
    requires SystemRun(w, systems, moves) && i < |systems|
    ensures SystemInv(w, systems[i])
    ensures StageOf(Arrived(w, systems[i])).Ready? ==>
              exists k: nat :: Connected(w, systems[i].relay, StageOf(Arrived(w, systems[i])).info, k)
  {
    AlwaysSystemInv(w, systems, moves, i);
    hide Story, Undisturbed, StageOf, Orderly, Atomic, Announced, Shape, Connected, GoalAt;
    var x := systems[i];
    if StageOf(Arrived(w, x)).Ready? {
      ReadyMeansGoal(w, x);
      var info := x.relay.logs[w.me][1].info.value;
      var k: nat :| GoalAt(w, x.relay.history, Registration(w, x.relay), info, k);
      GoalConnects(w, x.relay, info, StageOf(Arrived(w, x)).info, k);
    }
  }

  // ---------------------------------------------------------------- as line 167 stands

  lemma {:induction false} SystemFatal(w: Cast, systems: seq<System>, moves: seq<Move>, i: nat)
    requires SystemRun(w, systems, moves) && i < |systems| && w.unwraps
    ensures Fatal(systems[i].relay.history, systems[i].relay.pcs)
  {
    hide Fatal, Honest, Shape, Atomic, Orderly, Announced, Story, Undisturbed, Can, Do;
    if i == 0 {
      NothingFatal(systems[0].relay);
    } else {
      SystemFatal(w, systems, moves, i - 1);
      AlwaysSystemInv(w, systems, moves, i - 1);
      var x, m := systems[i - 1], moves[i - 1];
      if m.Send? {
        SendUndisturbed(w, x.relay, x.sent, m.n);
      }
      if !m.Receive? {
        StepFatal(x.relay, RelayStep(w, x, m));
      }
    }
  }

  /**
   As line 167 of relay.rs stands, a sender gets that far only if somebody else, on another
   connection, had registered the sender's id before it did.
   */
  lemma ReadyNeedsPredecessor(w: Cast, systems: seq<System>, moves: seq<Move>, i: nat) returns (first: nat, own: nat)
    requires SystemRun(w, systems, moves) && i < |systems| && w.unwraps
    requires SystemShape(w, systems[i]) && StageOf(Arrived(w, systems[i])).Ready?
    ensures var h := systems[i].relay.history;
      && first < own < |h| && h[own] == Registration(w, systems[i].relay)
      && Registers(h[first], w.source) && h[first].task != w.me
  {
    hide Own, Latest, StageOf, SystemInv, Shape, SystemRun;
    ReadyMeansConnected(w, systems, moves, i);
    SystemFatal(w, systems, moves, i);
    var s := systems[i].relay;
    var k: nat :| Connected(w, s, StageOf(Arrived(w, systems[i])).info, k);
    var h := s.history;
    var before := h[..h[k].since];
    own :| 0 <= own < |before| && before[own] == Registration(w, s);
    Survives(h, s.pcs, own, k);
    first := FirstRegistration(h[..own], w.source);
    assert h[..own][..first] == h[..first];
    assert FatalAt(h, s.pcs, first);
  }
}
