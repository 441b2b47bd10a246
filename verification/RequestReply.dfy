/** Commands aside, each connection is sent one matching reply per request, in order. */
module RequestReply {
  import opened Bytes
  import opened Peers
  import opened ProbeHistory
  import opened RelayFrames
  import opened RelaySystem

  /** The requests that the task of connection c has parsed. */
  function Requests(h: seq<Event>, c: nat): seq<RelayFrame> {
    if h == [] then []
    else
      var e := h[|h| - 1];
      Requests(h[..|h| - 1], c) + if e.Request? && e.task == c then [e.frame] else []
  }

  /** A request and what its task has done about it, up to the connection's next request. */
  datatype Turn = Turn(request: RelayFrame, deeds: seq<Event>)

  /** The history of one connection, one turn per request. */
  function Turns(h: seq<Event>, c: nat): seq<Turn> {
    if h == [] then []
    else
      var e, before := h[|h| - 1], Turns(h[..|h| - 1], c);
      if e.task != c then before
      else if e.Request? then before + [Turn(e.frame, [])]
      else Prolong(before, [e])
  }

  function Prolong(turns: seq<Turn>, news: seq<Event>): (r: seq<Turn>)
    ensures |r| == |turns|
  {
    if turns == [] then []
    else
      var n := |turns| - 1;
      turns[n := Turn(turns[n].request, turns[n].deeds + news)]
  }

  /** What is written to a connection apart from commands. */
  function Replies(log: seq<PeerFrame>): seq<PeerFrame> {
    if log == [] then []
    else
      var f := log[|log| - 1];
      Replies(log[..|log| - 1]) + if f.Command? then [] else [f]
  }

  // ---------------------------------------------------------------- what answers what

  /** The peer was found, and sent a command. */
  predicate Began(deeds: seq<Event>, c: nat, id: PeerId, command: PeerCommand) {
    && |deeds| >= 2 && deeds[0].Found? && deeds[0] == Found(c, id, deeds[0].entry)
    && deeds[1] == Wrote(c, deeds[0].entry.conn, Command(command))
  }

  /** The whole of a probe: all that its task did, for each of its outcomes. */
  predicate Probed(deeds: seq<Event>, c: nat, id: PeerId, found: Option<PeerInfo>) {
    match found
    case Some(info) =>
      && |deeds| == 4 && Began(deeds, c, id, Sync)
      && deeds[2] == Acked(c, deeds[0].entry.conn, ProbeAck)
      && deeds[3].ProbeOk? && deeds[3] == ProbeOk(c, id, deeds[0].entry, info, deeds[3].since)
      && info.peerId == id && info.ip == deeds[0].entry.ip
    case None =>
      || deeds == [Missing(c, id)]
      || (|deeds| == 2 && Began(deeds, c, id, Sync))
      || (&& |deeds| == 3 && Began(deeds, c, id, Sync) && deeds[2].Acked?
          && deeds[2] == Acked(c, deeds[0].entry.conn, deeds[2].frame) && deeds[2].frame != ProbeAck)
  }

  /** The same for a request to connect from the peer at ip. */
  predicate ToldPeer(deeds: seq<Event>, c: nat, ip: IpAddr, id: PeerId, status: Status) {
    match status
    case Success =>
      && |deeds| == 3 && Began(deeds, c, id, ConnectTo(ip))
      && deeds[2].ConnectOk? && deeds[2] == ConnectOk(c, id, deeds[0].entry, ip, deeds[2].since)
    case Failure => deeds == [Missing(c, id)]
  }

  /** The reply is of the kind the request calls for, and says just what the task has done, which is all it has. */
  predicate Answers(deeds: seq<Event>, c: nat, ip: IpAddr, request: RelayFrame, reply: PeerFrame) {
    match request
    case Register(id) => reply == RegisterResult(Success) && deeds == [Inserted(c, id, Entry(ip, c))]
    case Probe(id) => reply.ProbeResult? && Probed(deeds, c, id, reply.info)
    case DoConnect(id) => reply.DoConnectResult? && ToldPeer(deeds, c, ip, id, reply.status)
    case Ping => reply == PingResult(Healthy) && deeds == []
    case ProbeAck => false
  }

  /** ... and it has been written to the requester. */
  predicate Answered(deeds: seq<Event>, c: nat, ip: IpAddr, request: RelayFrame, reply: PeerFrame) {
    && deeds != [] && deeds[|deeds| - 1] == Wrote(c, c, reply)
    && Answers(deeds[..|deeds| - 1], c, ip, request, reply)
  }

  /** How far a request gets that its task dies of. */
  predicate Abandoned(deeds: seq<Event>, c: nat, ip: IpAddr, request: RelayFrame) {
    match request
    case Register(id) => deeds == [Inserted(c, id, Entry(ip, c))]
    case Probe(id) => |deeds| == 2 && Began(deeds, c, id, Sync)
    case DoConnect(_) => false
    case Ping => false
    case ProbeAck => deeds == []
  }

  /** How far a busy task is with its request. */
  predicate Underway(deeds: seq<Event>, c: nat, ip: IpAddr, request: RelayFrame, pc: Pc) {
    match pc
    case Registering(id) => request == Register(id) && deeds == []
    case Probing(id) => request == Probe(id) && deeds == []
    case Telling(id) => request == DoConnect(id) && deeds == []
    case Waiting(_, frame, Replied) => Answers(deeds, c, ip, request, frame)
    case Waiting(_, _, Synced(id, entry, _)) => request == Probe(id) && deeds == [Found(c, id, entry)]
    case Writing(_, _, _, Synced(id, entry, _)) => request == Probe(id) && deeds == [Found(c, id, entry)]
    case Waiting(_, _, Told(id, entry, _)) => request == DoConnect(id) && deeds == [Found(c, id, entry)]
    case Writing(_, _, _, Told(id, entry, _)) => request == DoConnect(id) && deeds == [Found(c, id, entry)]
    case Expecting(id, entry, _, _) =>
      request == Probe(id) && deeds == [Found(c, id, entry), Wrote(c, entry.conn, Command(Sync))]
    case _ => false
  }

  predicate Replying(pc: Pc) {
    pc.Writing? && pc.next.Replied?
  }

  /** Everything is answered, but for a reply being written, a request underway, or one given up. */
  predicate Settled(c: nat, ip: IpAddr, turns: seq<Turn>, replies: seq<PeerFrame>, pc: Pc) {
    var n := |replies|;
    && n <= |turns| <= n + 1
    && (forall i | 0 <= i < (if Replying(pc) then n - 1 else n) ::
          Answered(turns[i].deeds, c, ip, turns[i].request, replies[i]))
    && (if Replying(pc) then
          && 0 < n == |turns| && replies[n - 1] == pc.frame
          && Answers(turns[n - 1].deeds, c, ip, turns[n - 1].request, pc.frame)
        else if pc.Listening? then |turns| == n
        else if pc.Stopped? then |turns| == n + 1 ==> Abandoned(turns[n].deeds, c, ip, turns[n].request)
        else |turns| == n + 1 && Underway(turns[n].deeds, c, ip, turns[n].request, pc))
  }

  ghost predicate SettledIn(s: State, c: nat)
    requires Shape(s) && c < |s.ips|
  {
    Settled(c, s.ips[c], Turns(s.history, c), Replies(s.logs[c]), s.pcs[c])
  }

  ghost predicate Orderly(s: State)
    requires Shape(s)
  {
    forall c | 0 <= c < |s.ips| :: SettledIn(s, c)
  }

  // ---------------------------------------------------------------- turns

  lemma TurnsOne(h: seq<Event>, e: Event, c: nat)
    ensures Turns(h + [e], c) ==
            if e.task != c then Turns(h, c)
            else if e.Request? then Turns(h, c) + [Turn(e.frame, [])]
            else Prolong(Turns(h, c), [e])
  {
    assert (h + [e])[..|h|] == h;
  }

  /** There is one turn for each request, in order. */
  lemma {:induction false} TurnsAreRequests(h: seq<Event>, c: nat)
    ensures |Turns(h, c)| == |Requests(h, c)|
    ensures forall m | 0 <= m < |Turns(h, c)| :: Turns(h, c)[m].request == Requests(h, c)[m]
  {
    if h != [] {
      TurnsAreRequests(h[..|h| - 1], c);
    }
  }

  /**
   The m-th turn of c begins with its m-th request, at i, and ends before its next one, at
   `next`; its deeds are all that the task did in between.
   */
  ghost predicate TurnAt(h: seq<Event>, c: nat, m: nat, i: nat, next: nat)
    requires m < |Turns(h, c)|
  {
    var turns := Turns(h, c);
    && i < next <= |h| && h[i] == Request(c, turns[m].request) && |Turns(h[..i], c)| == m
    && turns[m].deeds == Own(h[i + 1..next], c)
    && (forall k | i < k < next :: !(h[k].Request? && h[k].task == c))
    && if m + 1 == |turns| then next == |h| else next < |h| && h[next] == Request(c, turns[m + 1].request)
  }

  /** Turns are what they are meant to be: the stretches of the history between consecutive requests. */
  lemma {:induction false} TurnsAreStretches(h: seq<Event>, c: nat, m: nat) returns (i: nat, next: nat)
    requires m < |Turns(h, c)|
    ensures TurnAt(h, c, m, i, next)
  {
    var n := |h| - 1;
    assert h == h[..n] + [h[n]];
    TurnsOne(h[..n], h[n], c);
    hide Turns;
    if m == |Turns(h[..n], c)| {
      i, next := n, n + 1;
    } else {
      i, next := TurnsAreStretches(h[..n], c, m);
      TurnStays(h[..n], h[n], c, m, i, next);
      if next == n && !(h[n].Request? && h[n].task == c) {
        next := n + 1;
      }
    }
  }

  lemma TurnStays(h: seq<Event>, e: Event, c: nat, m: nat, i: nat, next: nat)
    requires m < |Turns(h, c)| && TurnAt(h, c, m, i, next)
    ensures m < |Turns(h + [e], c)|
    ensures TurnAt(h + [e], c, m, i, if next == |h| && !(e.Request? && e.task == c) then next + 1 else next)
  {
    hide Turns, Own;
    TurnsOne(h, e, c);
    var more := h + [e];
    assert more[..i] == h[..i] && more[i] == h[i];
    assert more[i + 1..next] == h[i + 1..next];
    if next == |h| {
      assert more[i + 1..next + 1] == h[i + 1..next] + [e];
      OwnOne(h[i + 1..next], e, c);
      assert Own(h[i + 1..next], c) + [] == Own(h[i + 1..next], c);
    } else {
      assert more[next] == h[next];
    }
  }

  lemma RequestsOne(h: seq<Event>, e: Event, c: nat)
    ensures Requests(h + [e], c) == Requests(h, c) + if e.Request? && e.task == c then [e.frame] else []
  {
    assert (h + [e])[..|h|] == h;
  }

  lemma RepliesOne(log: seq<PeerFrame>, f: PeerFrame)
    ensures Replies(log + [f]) == Replies(log) + if f.Command? then [] else [f]
  {
    assert (log + [f])[..|log|] == log;
  }

  /** Only taking a frame from the buffer adds a request, and only for the task itself. */
  lemma StepRequests(s: State, a: Action, c: nat)
    requires Shape(s) && Can(s, a)
    ensures Requests(s.history + News(s, a), c) == Requests(s.history, c) +
            if a.Take? && a.c == c && ParseRelay(s.buffers[c]).Done? then [ParseRelay(s.buffers[c]).value] else []
  {
    hide ParseRelay, EncodePeer, Requests;
    var h, news := s.history, News(s, a);
    if news == [] {
      assert h + news == h;
    } else {
      RequestsOne(h, news[0], c);
      if |news| == 1 {
        assert news == [news[0]];
      } else {
        RequestsOne(h + [news[0]], news[1], c);
        assert h + news == h + [news[0]] + [news[1]];
      }
    }
  }

  /** Only taking the lock for a reply adds one, and a task replies on its own stream only. */
  lemma StepReplies(s: State, a: Action, unwraps: bool, c: nat)
    requires Shape(s) && Can(s, a) && c < |s.ips|
    ensures |Do(s, a, unwraps).logs| == |s.logs|
    ensures Replies(Do(s, a, unwraps).logs[c]) == Replies(s.logs[c]) +
            if a.Lock? && a.c == c && s.pcs[c].next.Replied? then [s.pcs[c].frame] else []
  {
    hide ParseRelay, EncodePeer, Replies;
    var pc := s.pcs[a.c];
    if a.Lock? {
      assert PcShape(pc, a.c, |s.ips|, s.ips[a.c]);
      if pc.to == c {
        RepliesOne(s.logs[c], pc.frame);
      }
    }
  }

  /** The turns of a connection after a step of its task: one more, or more deeds in the last one. */
  function NextTurns(s: State, a: Action, turns: seq<Turn>): seq<Turn>
    requires Shape(s) && Can(s, a)
  {
    if a.Take? && ParseRelay(s.buffers[a.c]).Done? then turns + [Turn(ParseRelay(s.buffers[a.c]).value, [])]
    else Prolong(turns, News(s, a))
  }

  lemma StepTurns(s: State, a: Action, unwraps: bool, c: nat)
    requires Shape(s) && Can(s, a)
    ensures Turns(s.history + News(s, a), c) ==
            if a.c == c then NextTurns(s, a, Turns(s.history, c)) else Turns(s.history, c)
  {
    hide ParseRelay, EncodePeer, Turns, Do;
    var h, news, turns := s.history, News(s, a), Turns(s.history, c);
    StepNews(s, a, unwraps);
    ProlongNone(turns);
    if news == [] {
      assert h + news == h;
    } else {
      assert news[0] in news;
      TurnsOne(h, news[0], c);
      if |news| == 1 {
        assert news == [news[0]];
      } else {
        assert news[1] in news;
        TurnsOne(h + [news[0]], news[1], c);
        assert h + news == h + [news[0]] + [news[1]];
        ProlongTwice(turns, news[0], news[1]);
        assert news == [news[0], news[1]];
      }
    }
  }

  lemma ProlongNone(turns: seq<Turn>)
    ensures Prolong(turns, []) == turns
  {
    if turns != [] {
      assert turns[|turns| - 1].deeds + [] == turns[|turns| - 1].deeds;
    }
  }

  lemma ProlongTwice(turns: seq<Turn>, e: Event, f: Event)
    ensures Prolong(Prolong(turns, [e]), [f]) == Prolong(turns, [e, f])
  {
    if turns != [] {
      var deeds := turns[|turns| - 1].deeds;
      assert deeds + [e] + [f] == deeds + [e, f];
    }
  }

  // ---------------------------------------------------------------- steps

  /** A busy task gets on with its request, or dies of it. */
  lemma GetsOn(c: nat, ip: IpAddr, turns: seq<Turn>, replies: seq<PeerFrame>, pc: Pc, news: seq<Event>, next: Pc)
    requires Settled(c, ip, turns, replies, pc) && !Replying(pc) && !pc.Listening? && !pc.Stopped?
    requires var turn := turns[|replies|];
      if next.Stopped? then Abandoned(turn.deeds + news, c, ip, turn.request)
      else !Replying(next) && !next.Listening? && Underway(turn.deeds + news, c, ip, turn.request, next)
    ensures Settled(c, ip, Prolong(turns, news), replies, next)
  {
    hide Answered, Abandoned, Underway;
  }

  /** A task takes up a request. */
  lemma TakesUp(c: nat, ip: IpAddr, turns: seq<Turn>, replies: seq<PeerFrame>, request: RelayFrame)
    requires Settled(c, ip, turns, replies, Listening)
    ensures Settled(c, ip, turns + [Turn(request, [])], replies, Handle(c, request))
  {
    hide Answered;
  }

  /** A task starts to write a reply. */
  lemma StartsReply(c: nat, ip: IpAddr, turns: seq<Turn>, replies: seq<PeerFrame>, to: nat, frame: PeerFrame)
    requires Settled(c, ip, turns, replies, Waiting(to, frame, Replied))
    ensures Settled(c, ip, turns, replies + [frame], Writing(to, frame, 0, Replied))
  {
    hide Answered, Answers;
  }

  /** ... and has written it. */
  lemma EndsReply(c: nat, ip: IpAddr, turns: seq<Turn>, replies: seq<PeerFrame>, to: nat, frame: PeerFrame, sent: nat)
    requires Settled(c, ip, turns, replies, Writing(to, frame, sent, Replied))
    ensures Settled(c, ip, Prolong(turns, [Wrote(c, c, frame)]), replies, Listening)
  {
    hide Answers;
    var deeds := turns[|turns| - 1].deeds;
    assert (deeds + [Wrote(c, c, frame)])[..|deeds|] == deeds;
  }

  /** A step after which the task fits its turns and replies as it did before. */
  predicate Silent(a: Action) {
    a.Deliver? || a.Read? || a.Hangup? || a.Write? || a.ReadAck?
  }

  lemma SilentSettled(s: State, a: Action, unwraps: bool, turns: seq<Turn>, replies: seq<PeerFrame>)
    requires Shape(s) && Can(s, a) && Silent(a) && Settled(a.c, s.ips[a.c], turns, replies, s.pcs[a.c])
    ensures News(s, a) == []
    ensures Settled(a.c, s.ips[a.c], turns, replies, Do(s, a, unwraps).pcs[a.c])
  {
    hide ParseRelay, EncodePeer, Answered, Answers, Abandoned;
  }

  /** Insertions, lookups, and the ends of commands and of waiting for an acknowledgement. */
  lemma BusySettled(s: State, a: Action, unwraps: bool, turns: seq<Turn>, replies: seq<PeerFrame>)
    requires Shape(s) && Can(s, a) && Settled(a.c, s.ips[a.c], turns, replies, s.pcs[a.c])
    requires a.Insert? || a.Lookup? || a.TakeAck? || a.HangupAck? || (a.Release? && !s.pcs[a.c].next.Replied?)
    ensures Settled(a.c, s.ips[a.c], Prolong(turns, News(s, a)), replies, Do(s, a, unwraps).pcs[a.c])
  {
    hide ParseRelay, EncodePeer, Answered;
    assert PcShape(s.pcs[a.c], a.c, |s.ips|, s.ips[a.c]);
    var pc, next, news := s.pcs[a.c], Do(s, a, unwraps).pcs[a.c], News(s, a);
    var turn := turns[|replies|];
    hide Prolong;
    BusyUnderway(s, a, unwraps, turn);
    hide Do, News, Can, Shape, Underway, Abandoned;
    GetsOn(a.c, s.ips[a.c], turns, replies, pc, news, next);
  }

  lemma BusyUnderway(s: State, a: Action, unwraps: bool, turn: Turn)
    requires Shape(s) && Can(s, a) && Underway(turn.deeds, a.c, s.ips[a.c], turn.request, s.pcs[a.c])
    requires a.Insert? || a.Lookup? || a.TakeAck? || a.HangupAck? || (a.Release? && !s.pcs[a.c].next.Replied?)
    ensures var next, deeds := Do(s, a, unwraps).pcs[a.c], turn.deeds + News(s, a);
      && !Replying(next) && !next.Listening?
      && if next.Stopped? then Abandoned(deeds, a.c, s.ips[a.c], turn.request)
         else Underway(deeds, a.c, s.ips[a.c], turn.request, next)
  {
    hide ParseRelay, EncodePeer;
    assert PcShape(s.pcs[a.c], a.c, |s.ips|, s.ips[a.c]);
  }

  /** The new place of the task fits its turns and replies. */
  lemma NextSettled(s: State, a: Action, unwraps: bool, turns: seq<Turn>, replies: seq<PeerFrame>)
    requires Shape(s) && Can(s, a) && Settled(a.c, s.ips[a.c], turns, replies, s.pcs[a.c])
    ensures Settled(a.c, s.ips[a.c], NextTurns(s, a, turns),
                    replies + if a.Lock? && s.pcs[a.c].next.Replied? then [s.pcs[a.c].frame] else [],
                    Do(s, a, unwraps).pcs[a.c])
  {
    hide ParseRelay, EncodePeer, Prolong, Answered, Answers, Abandoned;
    var c, ip, pc := a.c, s.ips[a.c], s.pcs[a.c];
    assert replies + [] == replies;
    ProlongNone(turns);
    if Silent(a) {
      SilentSettled(s, a, unwraps, turns, replies);
    } else if a.Take? {
      if ParseRelay(s.buffers[c]).Done? {
        TakesUp(c, ip, turns, replies, ParseRelay(s.buffers[c]).value);
      }
    } else if a.Lock? {
      if pc.next.Replied? {
        StartsReply(c, ip, turns, replies, pc.to, pc.frame);
      }
    } else if a.Release? && pc.next.Replied? {
      assert PcShape(pc, c, |s.ips|, ip);
      EndsReply(c, ip, turns, replies, pc.to, pc.frame, pc.sent);
      assert [Wrote(c, c, pc.frame)] + [] == [Wrote(c, c, pc.frame)];
    } else {
      BusySettled(s, a, unwraps, turns, replies);
    }
  }

  lemma StepOrderly(s: State, a: Action, unwraps: bool)
    requires Shape(s) && Can(s, a) && Orderly(s) && Shape(Do(s, a, unwraps))
    requires Do(s, a, unwraps).ips == s.ips
    ensures Orderly(Do(s, a, unwraps))
  {
    hide Can, Do, News, NextTurns, Turns, Replies, Settled;
    var t := Do(s, a, unwraps);
    StepNews(s, a, unwraps);
    forall c | 0 <= c < |s.ips|
      ensures SettledIn(t, c)
    {
      assert SettledIn(s, c);
      StepTurns(s, a, unwraps, c);
      StepReplies(s, a, unwraps, c);
      if c == a.c {
        NextSettled(s, a, unwraps, Turns(s.history, c), Replies(s.logs[c]));
      } else {
        assert Replies(s.logs[c]) + [] == Replies(s.logs[c]);
      }
    }
  }

  lemma {:induction false} AlwaysOrderly(states: seq<State>, actions: seq<Action>, unwraps: bool, i: nat)
    requires Execution(states, actions, unwraps) && i < |states|
    ensures Shape(states[i]) && Orderly(states[i])
  {
    hide Can, Do, Orderly, Shape;
    if i == 0 {
      InitialShape(states[0]);
      InitialOrderly(states[0]);
    } else {
      AlwaysOrderly(states, actions, unwraps, i - 1);
      StepShape(states[i - 1], actions[i - 1], unwraps);
      StepOrderly(states[i - 1], actions[i - 1], unwraps);
    }
  }

  lemma InitialOrderly(s: State)
    requires Initial(s) && Shape(s)
    ensures Orderly(s)
  {}

  /**
   Request and reply matching. On every run, the frames written to a connection other than
   commands answer the requests of its task one by one, in order and in kind, and each
   reports exactly what the task did about its request; the last of them may be underway.
   At most one request is unanswered: none while the task waits for the next one, one that
   is being handled, or one that the task has died of, which is never a Ping or a DoConnect.
   */
  lemma EveryRequestAnswered(states: seq<State>, actions: seq<Action>, unwraps: bool, i: nat, c: nat)
    requires Execution(states, actions, unwraps) && i < |states|
    requires Shape(states[i]) && c < |states[i].ips|
    ensures var turns, replies := Turns(states[i].history, c), Replies(states[i].logs[c]);
      var ip, pc, n := states[i].ips[c], states[i].pcs[c], |replies|;
      && n <= |turns| <= n + 1
      && (forall m | 0 <= m < n - 1 :: Answered(turns[m].deeds, c, ip, turns[m].request, replies[m]))
      && (n > 0 ==>
            if Replying(pc) then Answers(turns[n - 1].deeds, c, ip, turns[n - 1].request, replies[n - 1])
            else Answered(turns[n - 1].deeds, c, ip, turns[n - 1].request, replies[n - 1]))
      && (pc.Listening? || Replying(pc) ==> |turns| == n)
      && (|turns| == n + 1 ==>
            if pc.Stopped? then Abandoned(turns[n].deeds, c, ip, turns[n].request)
            else Underway(turns[n].deeds, c, ip, turns[n].request, pc))
  {
    hide Can, Do, Turns, Replies, Answered, Answers, Abandoned, Underway;
    AlwaysOrderly(states, actions, unwraps, i);
    assert SettledIn(states[i], c);
  }

  /**
   The lookup of a turn, and what it says of the registry: when it found nothing, nobody had
   registered the id by then; when it found an entry, that was the latest registration.
   */
  lemma LookupOfTurn(states: seq<State>, actions: seq<Action>, unwraps: bool, i: nat, c: nat, m: nat)
    returns (start: nat, k: nat, next: nat)
    requires Execution(states, actions, unwraps) && i < |states| && m < |Turns(states[i].history, c)|
    requires var deeds := Turns(states[i].history, c)[m].deeds; deeds != [] && (deeds[0].Missing? || deeds[0].Found?)
    ensures var h := states[i].history;
      && TurnAt(h, c, m, start, next) && start < k < next && h[k] == Turns(h, c)[m].deeds[0]
      && (h[k].Missing? ==> forall j | 0 <= j < k :: !Registers(h[j], h[k].id))
      && (h[k].Found? ==> Latest(h[..k], h[k].id, h[k].entry))
  {
    hide Can, Do, Turns, Latest;
    var h := states[i].history;
    start, next := TurnsAreStretches(h, c, m);
    var n := FirstOwn(h[start + 1..next], c);
    k := start + 1 + n;
    LookupIsExact(states, actions, unwraps, i, k);
  }

  lemma {:induction false} FirstOwn(h: seq<Event>, c: nat) returns (n: nat)
    requires Own(h, c) != []
    ensures n < |h| && h[n] == Own(h, c)[0]
  {
    var last := |h| - 1;
    if Own(h[..last], c) == [] {
      n := last;
    } else {
      n := FirstOwn(h[..last], c);
    }
  }

  /** On every run, exactly why a task stops, in terms of what it read and what was registered. */
  lemma WhyStopped(states: seq<State>, actions: seq<Action>, unwraps: bool, i: nat, c: nat)
    requires Execution(states, actions, unwraps) && i < |actions|
    requires Shape(states[i]) && Can(states[i], actions[i]) && c < |states[i].pcs| && !states[i].pcs[c].Stopped?
    ensures var s, a := states[i], actions[i];
      && |states[i + 1].pcs| == |s.pcs|
      && (states[i + 1].pcs[c].Stopped? <==>
            && a.c == c
            && match a
               case Take(_) => ParseRelay(s.buffers[c]).Invalid? || ParseRelay(s.buffers[c]).value == ProbeAck
               case Hangup(_) => true
               case TakeAck(_, _) => ParseRelay(s.pcs[c].bytes).Invalid?
               case HangupAck(_) => s.pcs[c].bytes != []
               case Insert(_) => unwraps && forall j | 0 <= j < |s.history| :: !Registers(s.history[j], s.pcs[c].id)
               case _ => false)
  {
    hide Replay, EncodePeer, ParseRelay, Past, CallOk, Do;
    AlwaysHonest(states, actions, unwraps, i);
    StopsExactly(states[i], actions[i], unwraps, c);
    if actions[i].Insert? && actions[i].c == c {
      RegisteredBefore(states[i].history, states[i].pcs[c].id);
    }
  }

  /**
   As written, line 167 of relay.rs unwraps the previous value of the map: a registration
   panics, unanswered, exactly when no earlier event registered that id.
   */
  lemma FirstRegistrationPanics(states: seq<State>, actions: seq<Action>, i: nat)
    requires Execution(states, actions, true) && i < |actions| && actions[i].Insert?
    requires Shape(states[i]) && Can(states[i], actions[i])
    ensures var c := actions[i].c; var h := states[i].history; var id := states[i].pcs[c].id;
      states[i + 1].pcs[c] ==
        if exists j :: 0 <= j < |h| && Registers(h[j], id) then Reply(c, RegisterResult(Success)) else Stopped
  {
    hide Replay, EncodePeer, ParseRelay, Past, CallOk;
    AlwaysHonest(states, actions, true, i);
    RegisteredBefore(states[i].history, states[i].pcs[actions[i].c].id);
  }

  /** A relay with a single connection. */
  function Alone(ip: IpAddr, pc: Pc, buffer: seq<byte>, inbox: seq<byte>): State {
    State(map[], [ip], [pc], [buffer], [inbox], [[]], [None], [[]], [])
  }

  lemma Arrives(ip: IpAddr, bytes: seq<byte>, unwraps: bool)
    requires bytes != []
    ensures var s, t := Alone(ip, Listening, [], []), Alone(ip, Listening, [], bytes);
      && Shape(s) && Can(s, Deliver(0, bytes)) && Do(s, Deliver(0, bytes), unwraps) == t
      && Shape(t) && Can(t, Read(0, |bytes|)) && Do(t, Read(0, |bytes|), unwraps) == Alone(ip, Listening, bytes, [])
  {
    hide EncodePeer;
    assert [] + bytes == bytes && bytes[..|bytes|] == bytes && bytes[|bytes|..] == [];
  }

  lemma IsTaken(ip: IpAddr, id: PeerId, unwraps: bool)
    ensures var s := Alone(ip, Listening, EncodeRelay(Register(id)), []);
      && Shape(s) && Can(s, Take(0))
      && Do(s, Take(0), unwraps) == Alone(ip, Registering(id), [], []).Record(Request(0, Register(id)))
  {
    hide ParseRelay, EncodeRelay, EncodePeer;
    var bytes := EncodeRelay(Register(id));
    RelayRoundTrip(Register(id), []);
    assert bytes + [] == bytes;
  }

  lemma IsInserted(ip: IpAddr, id: PeerId, unwraps: bool)
    ensures var s := Alone(ip, Registering(id), [], []).Record(Request(0, Register(id)));
      && Shape(s) && Can(s, Insert(0))
      && Do(s, Insert(0), unwraps).registry == map[id := Entry(ip, 0)]
      && |Do(s, Insert(0), unwraps).pcs| == 1
      && Do(s, Insert(0), unwraps).pcs[0] == if unwraps then Stopped else Reply(0, RegisterResult(Success))
  {
    hide ParseRelay, EncodePeer;
  }

  /** The shortest run that registers an id for the first time: as written, its task dies of it. */
  lemma FirstRegistrationRun(id: PeerId, ip: IpAddr, unwraps: bool) returns (states: seq<State>, actions: seq<Action>)
    ensures Execution(states, actions, unwraps) && |actions| == 4 && actions[3] == Insert(0)
    ensures states[4].registry == map[id := Entry(ip, 0)] && |states[4].pcs| > 0
    ensures states[4].pcs[0] == if unwraps then Stopped else Reply(0, RegisterResult(Success))
  {
    hide EncodeRelay, Can, Do, Shape;
    var bytes := EncodeRelay(Register(id));
    assert Initial(Alone(ip, Listening, [], []));
    Arrives(ip, bytes, unwraps);
    IsTaken(ip, id, unwraps);
    IsInserted(ip, id, unwraps);
    actions := [Deliver(0, bytes), Read(0, |bytes|), Take(0), Insert(0)];
    var read := Alone(ip, Listening, bytes, []);
    var taken := Alone(ip, Registering(id), [], []).Record(Request(0, Register(id)));
    var inserted := Do(taken, Insert(0), unwraps);
    states := [Alone(ip, Listening, [], []), Alone(ip, Listening, [], bytes), read, taken, inserted];
  }
}
