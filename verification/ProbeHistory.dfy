/** A successful probe is the end of a real exchange with a peer that stayed registered throughout. */
module ProbeHistory {
  import opened Peers
  import opened RelayFrames
  import opened RelaySystem

  /** The registry that a history of insertions leaves. */
  function Replay(h: seq<Event>): map<PeerId, Entry> {
    if h == [] then map[]
    else
      var e := h[|h| - 1];
      var before := Replay(h[..|h| - 1]);
      if e.Inserted? then before[e.id := e.entry] else before
  }

  /** The events of one task. */
  function Own(h: seq<Event>, c: nat): seq<Event> {
    if h == [] then []
    else
      var e := h[|h| - 1];
      Own(h[..|h| - 1], c) + if e.task == c then [e] else []
  }

  /** From `since` to the end of the history, the registry maps id to entry. */
  ghost predicate Kept(h: seq<Event>, since: nat, id: PeerId, entry: Entry) {
    forall j | since <= j <= |h| :: id in Replay(h[..j]) && Replay(h[..j])[id] == entry
  }

  /** Task c is in a call that looked id up at `since`, and `own` is all it has done since. */
  ghost predicate InCall(h: seq<Event>, c: nat, id: PeerId, entry: Entry, since: nat, own: seq<Event>) {
    since < |h| && Own(h[since..], c) == own && Kept(h, since, id, entry)
  }

  /** What must have happened by the time a probe reports success, as the k-th event. */
  ghost predicate Witnessed(h: seq<Event>, k: nat)
    requires k < |h| && h[k].ProbeOk?
  {
    var p := h[k];
    && p.since < k && h[p.since] == Found(p.task, p.id, p.entry)
    && Own(h[p.since..k + 1], p.task) ==
         [Found(p.task, p.id, p.entry), Wrote(p.task, p.entry.conn, Command(Sync)),
          Acked(p.task, p.entry.conn, ProbeAck), p]
    && p.info.ip == p.entry.ip && p.info.peerId == p.id
    && Kept(h[..k + 1], p.since, p.id, p.entry)
  }

  /** What must have happened by the time a request to connect reports success, as the k-th event. */
  ghost predicate Forwarded(h: seq<Event>, k: nat)
    requires k < |h| && h[k].ConnectOk?
  {
    var p := h[k];
    && p.since < k && h[p.since] == Found(p.task, p.id, p.entry)
    && Own(h[p.since..k + 1], p.task) ==
         [Found(p.task, p.id, p.entry), Wrote(p.task, p.entry.conn, Command(ConnectTo(p.ip))), p]
    && Kept(h[..k + 1], p.since, p.id, p.entry)
  }

  ghost predicate PastOk(h: seq<Event>, k: nat)
    requires k < |h|
  {
    && (h[k].ProbeOk? ==> Witnessed(h, k)) && (h[k].ConnectOk? ==> Forwarded(h, k))
    && (h[k].Found? ==> h[k].id in Replay(h[..k]) && Replay(h[..k])[h[k].id] == h[k].entry)
    && (h[k].Missing? ==> h[k].id !in Replay(h[..k]))
  }

  ghost predicate Past(h: seq<Event>) {
    forall k | 0 <= k < |h| :: PastOk(h, k)
  }

  ghost predicate CallOk(h: seq<Event>, c: nat, pc: Pc) {
    match pc
    case Waiting(_, _, Synced(id, entry, since)) => LookedUp(h, c, id, entry, since)
    case Writing(_, _, _, Synced(id, entry, since)) => LookedUp(h, c, id, entry, since)
    case Waiting(_, _, Told(id, entry, since)) => LookedUp(h, c, id, entry, since)
    case Writing(_, _, _, Told(id, entry, since)) => LookedUp(h, c, id, entry, since)
    case Expecting(id, entry, since, _) =>
      InCall(h, c, id, entry, since, [Found(c, id, entry), Wrote(c, entry.conn, Command(Sync))])
      && h[since] == Found(c, id, entry)
    case _ => true
  }

  ghost predicate LookedUp(h: seq<Event>, c: nat, id: PeerId, entry: Entry, since: nat) {
    InCall(h, c, id, entry, since, [Found(c, id, entry)]) && h[since] == Found(c, id, entry)
  }

  /** An event reports its task's own address and stream. */
  predicate Truthful(e: Event, ips: seq<IpAddr>) {
    match e
    case Inserted(c, _, entry) => c < |ips| && entry == Entry(ips[c], c)
    case ConnectOk(c, _, _, ip, _) => c < |ips| && ip == ips[c]
    case _ => true
  }

  ghost predicate Honest(s: State) {
    && s.registry == Replay(s.history)
    && Past(s.history)
    && (forall e | e in s.history :: Truthful(e, s.ips))
    && forall c | 0 <= c < |s.pcs| :: CallOk(s.history, c, s.pcs[c])
  }

  predicate Registers(e: Event, id: PeerId) {
    e.Inserted? && e.id == id
  }

  /** The i-th event registers id, under entry, and no later one does. */
  ghost predicate LatestAt(h: seq<Event>, i: nat, id: PeerId, entry: Entry) {
    && i < |h| && Registers(h[i], id) && h[i].entry == entry
    && forall j | i < j < |h| :: !Registers(h[j], id)
  }

  /** The latest registration of id was under entry. */
  ghost predicate Latest(h: seq<Event>, id: PeerId, entry: Entry) {
    exists i: nat :: LatestAt(h, i, id, entry)
  }

  /** The registry holds, for every id, the latest registration and nothing else. */
  lemma {:induction false} ReplayIsLatest(h: seq<Event>, id: PeerId, entry: Entry)
    ensures id in Replay(h) && Replay(h)[id] == entry <==> Latest(h, id, entry)
  {
    if h != [] {
      var n := |h| - 1;
      ReplayIsLatest(h[..n], id, entry);
      if Registers(h[n], id) {
        forall i | LatestAt(h, i, id, entry)
          ensures i == n
        {}
        assert h[n].entry == entry ==> LatestAt(h, n, id, entry);
      } else {
        forall i | LatestAt(h, i, id, entry)
          ensures LatestAt(h[..n], i, id, entry)
        {}
        forall i | LatestAt(h[..n], i, id, entry)
          ensures LatestAt(h, i, id, entry)
        {}
      }
    }
  }

  // ---------------------------------------------------------------- one more event

  lemma ReplayOne(h: seq<Event>, e: Event)
    ensures Replay(h + [e]) == if e.Inserted? then Replay(h)[e.id := e.entry] else Replay(h)
  {
    assert (h + [e])[..|h|] == h;
  }

  lemma OwnOne(h: seq<Event>, e: Event, c: nat)
    ensures Own(h + [e], c) == Own(h, c) + if e.task == c then [e] else []
  {
    assert (h + [e])[..|h|] == h;
  }

  lemma KeptOne(h: seq<Event>, e: Event, since: nat, id: PeerId, entry: Entry)
    requires since <= |h| && Kept(h, since, id, entry) && !(e.Inserted? && e.id == id)
    ensures Kept(h + [e], since, id, entry)
  {
    hide Replay;
    forall j | since <= j <= |h| + 1
      ensures id in Replay((h + [e])[..j]) && Replay((h + [e])[..j])[id] == entry
    {
      if j <= |h| {
        assert (h + [e])[..j] == h[..j];
      } else {
        assert (h + [e])[..j] == h + [e] && h[..|h|] == h;
        ReplayOne(h, e);
        assert id in Replay(h[..|h|]);
      }
    }
  }

  lemma InCallOne(h: seq<Event>, e: Event, c: nat, id: PeerId, entry: Entry, since: nat, own: seq<Event>)
    requires InCall(h, c, id, entry, since, own) && !(e.Inserted? && e.id == id)
    ensures InCall(h + [e], c, id, entry, since, own + if e.task == c then [e] else [])
    ensures (h + [e])[since] == h[since]
  {
    hide Kept, Own;
    assert (h + [e])[since..] == h[since..] + [e];
    OwnOne(h[since..], e, c);
    KeptOne(h, e, since, id, entry);
  }

  lemma PastOkOne(h: seq<Event>, e: Event, k: nat)
    requires k < |h| && PastOk(h, k)
    ensures PastOk(h + [e], k)
  {
    hide Kept, Own, Replay;
    assert (h + [e])[k] == h[k] && (h + [e])[..k] == h[..k];
    if h[k].ProbeOk? || h[k].ConnectOk? {
      assert (h + [e])[h[k].since..k + 1] == h[h[k].since..k + 1];
      assert (h + [e])[..k + 1] == h[..k + 1];
    }
  }

  lemma PastOne(h: seq<Event>, e: Event)
    requires Past(h) && PastOk(h + [e], |h|)
    ensures Past(h + [e])
  {
    hide PastOk;
    forall k | 0 <= k < |h| + 1
      ensures PastOk(h + [e], k)
    {
      if k < |h| {
        PastOkOne(h, e, k);
      }
    }
  }

  lemma LookedUpOne(h: seq<Event>, e: Event, c: nat, id: PeerId, entry: Entry, since: nat)
    requires LookedUp(h, c, id, entry, since) && e.task != c && !(e.Inserted? && e.id == id)
    ensures LookedUp(h + [e], c, id, entry, since)
  {
    hide InCall;
    InCallOne(h, e, c, id, entry, since, [Found(c, id, entry)]);
    assert [Found(c, id, entry)] + [] == [Found(c, id, entry)];
  }

  /** An event of another task that leaves id registered does not disturb a call about id. */
  lemma CallOkOne(h: seq<Event>, e: Event, c: nat, pc: Pc)
    requires CallOk(h, c, pc) && e.task != c
    requires e.Inserted? ==> !Guards(pc, e.id)
    ensures CallOk(h + [e], c, pc)
  {
    hide InCall, LookedUp;
    match pc {
      case Waiting(_, _, Synced(id, entry, since)) => LookedUpOne(h, e, c, id, entry, since);
      case Writing(_, _, _, Synced(id, entry, since)) => LookedUpOne(h, e, c, id, entry, since);
      case Waiting(_, _, Told(id, entry, since)) => LookedUpOne(h, e, c, id, entry, since);
      case Writing(_, _, _, Told(id, entry, since)) => LookedUpOne(h, e, c, id, entry, since);
      case Expecting(id, entry, since, _) =>
        var own := [Found(c, id, entry), Wrote(c, entry.conn, Command(Sync))];
        InCallOne(h, e, c, id, entry, since, own);
        assert own + [] == own;
      case _ =>
    }
  }

  // ---------------------------------------------------------------- steps

  /** The events of a step, in order. */
  function News(s: State, a: Action): seq<Event>
    requires Shape(s) && Can(s, a)
  {
    var pc := s.pcs[a.c];
    match a
    case Take(c) =>
      var parsed := ParseRelay(s.buffers[c]);
      if parsed.Done? then [Request(c, parsed.value)] else []
    case Insert(c) => [Inserted(c, pc.id, Entry(s.ips[c], c))]
    case Lookup(c) =>
      if pc.id in s.registry then [Found(c, pc.id, s.registry[pc.id])] else [Missing(c, pc.id)]
    case Release(c) =>
      [Wrote(c, pc.to, pc.frame)] +
      if pc.next.Told? then [ConnectOk(c, pc.next.id, pc.next.entry, s.ips[c], pc.next.since)] else []
    case TakeAck(c, rtt) =>
      var parsed := ParseRelay(pc.bytes);
      if !parsed.Done? then []
      else if !parsed.value.ProbeAck? then [Acked(c, pc.entry.conn, parsed.value)]
      else [Acked(c, pc.entry.conn, ProbeAck),
            ProbeOk(c, pc.id, pc.entry, PeerInfo(pc.id, pc.entry.ip, rtt), pc.since)]
    case _ => []
  }

  lemma StepNews(s: State, a: Action, unwraps: bool)
    requires Shape(s) && Can(s, a)
    ensures var t := Do(s, a, unwraps);
      && t.history == s.history + News(s, a)
      && |t.pcs| == |s.pcs| && t.pcs == s.pcs[a.c := t.pcs[a.c]]
      && (t.registry != s.registry ==> a.Insert?)
      && (a.Insert? ==> t.registry == s.registry[s.pcs[a.c].id := Entry(s.ips[a.c], a.c)])
    ensures |News(s, a)| <= 2
    ensures forall e | e in News(s, a) :: e.task == a.c && Truthful(e, s.ips)
    ensures Do(s, a, unwraps).ips == s.ips && a.c < |s.ips|
  {
    hide ParseRelay, EncodePeer;
  }

  lemma OtherCalls(s: State, a: Action, c: nat)
    requires Shape(s) && Can(s, a) && c < |s.pcs| && c != a.c
    requires CallOk(s.history, c, s.pcs[c])
    ensures CallOk(s.history + News(s, a), c, s.pcs[c])
  {
    hide CallOk, Guards, ParseRelay, EncodePeer;
    var h, news, pc := s.history, News(s, a), s.pcs[c];
    if news == [] {
      assert h + news == h;
    } else {
      CallOkOne(h, news[0], c, pc);
      if |news| == 1 {
        assert news == [news[0]];
      } else {
        CallOkOne(h + [news[0]], news[1], c, pc);
        assert h + news == h + [news[0]] + [news[1]];
      }
    }
  }

  /** A lookup opens a call. */
  lemma CallOpens(h: seq<Event>, c: nat, id: PeerId, entry: Entry)
    requires id in Replay(h) && Replay(h)[id] == entry
    ensures LookedUp(h + [Found(c, id, entry)], c, id, entry, |h|)
  {
    hide Replay;
    var n, e := |h|, Found(c, id, entry);
    assert (h + [e])[n..] == [e];
    OwnOne([], e, c);
    assert [] + [e] == [e];
    assert h[..n] == h;
    KeptOne(h, e, n, id, entry);
  }

  lemma OwnCall(s: State, a: Action, unwraps: bool)
    requires Shape(s) && Can(s, a) && Honest(s)
    ensures CallOk(Do(s, a, unwraps).history, a.c, Do(s, a, unwraps).pcs[a.c])
  {
    hide ParseRelay, EncodePeer, InCall, Past, Replay;
    var pc := s.pcs[a.c];
    assert CallOk(s.history, a.c, pc);
    match a {
      case Lookup(c) =>
        if pc.id in s.registry {
          CallOpens(s.history, c, pc.id, s.registry[pc.id]);
        }
      case Release(c) =>
        if pc.next.Synced? {
          var own := [Found(c, pc.next.id, pc.next.entry)];
          InCallOne(s.history, Wrote(c, pc.to, pc.frame), c, pc.next.id, pc.next.entry, pc.next.since, own);
          assert own + [Wrote(c, pc.to, pc.frame)]
              == [Found(c, pc.next.id, pc.next.entry), Wrote(c, pc.next.entry.conn, Command(Sync))];
        }
      case _ =>
    }
  }

  /** The acknowledgement that ends a call makes its success a witnessed one. */
  lemma CallSucceeds(h: seq<Event>, c: nat, id: PeerId, entry: Entry, since: nat, rtt: Duration)
    requires CallOk(h, c, Expecting(id, entry, since, []))
    ensures var acked := h + [Acked(c, entry.conn, ProbeAck)];
      var info := PeerInfo(id, entry.ip, rtt);
      Witnessed(acked + [ProbeOk(c, id, entry, info, since)], |acked|)
  {
    hide Kept, Own;
    var e := Acked(c, entry.conn, ProbeAck);
    var p := ProbeOk(c, id, entry, PeerInfo(id, entry.ip, rtt), since);
    var own := [Found(c, id, entry), Wrote(c, entry.conn, Command(Sync))];
    InCallOne(h, e, c, id, entry, since, own);
    InCallOne(h + [e], p, c, id, entry, since, own + [e]);
    var all := h + [e] + [p];
    assert all[since..|h| + 2] == all[since..] && all[..|h| + 2] == all;
    assert own + [e] + [p] == [Found(c, id, entry), Wrote(c, entry.conn, Command(Sync)), e, p];
  }

  /** The command written in a call makes its success a forwarded one. */
  lemma CallForwarded(h: seq<Event>, c: nat, id: PeerId, entry: Entry, ip: IpAddr, since: nat)
    requires LookedUp(h, c, id, entry, since)
    ensures var wrote := h + [Wrote(c, entry.conn, Command(ConnectTo(ip)))];
      Forwarded(wrote + [ConnectOk(c, id, entry, ip, since)], |wrote|)
  {
    hide Kept, Own;
    var e := Wrote(c, entry.conn, Command(ConnectTo(ip)));
    var p := ConnectOk(c, id, entry, ip, since);
    var own := [Found(c, id, entry)];
    InCallOne(h, e, c, id, entry, since, own);
    InCallOne(h + [e], p, c, id, entry, since, own + [e]);
    var all := h + [e] + [p];
    assert all[since..|h| + 2] == all[since..] && all[..|h| + 2] == all;
    assert own + [e] + [p] == [Found(c, id, entry), e, p];
  }

  lemma StepPast(s: State, a: Action)
    requires Shape(s) && Can(s, a) && Honest(s)
    ensures Past(s.history + News(s, a))
  {
    hide ParseRelay, EncodePeer, InCall, LookedUp, Past, Replay, Witnessed, Forwarded;
    var h, news, pc := s.history, News(s, a), s.pcs[a.c];
    if news == [] {
      assert h + news == h;
    } else {
      assert !news[0].ProbeOk? && !news[0].ConnectOk?;
      assert (h + [news[0]])[..|h|] == h;
      PastOne(h, news[0]);
      if |news| == 1 {
        assert news == [news[0]];
      } else {
        assert CallOk(h, a.c, pc);
        if a.TakeAck? {
          CallSucceeds(h, a.c, pc.id, pc.entry, pc.since, a.rtt);
        } else {
          assert PcShape(pc, a.c, |s.ips|, s.ips[a.c]);
          CallForwarded(h, a.c, pc.next.id, pc.next.entry, s.ips[a.c], pc.next.since);
        }
        PastOne(h + [news[0]], news[1]);
        assert h + news == h + [news[0]] + [news[1]];
      }
    }
  }

  lemma StepReplay(s: State, a: Action)
    requires Shape(s) && Can(s, a)
    ensures Replay(s.history + News(s, a)) ==
            if a.Insert? then Replay(s.history)[s.pcs[a.c].id := Entry(s.ips[a.c], a.c)] else Replay(s.history)
  {
    hide ParseRelay, EncodePeer, Replay;
    var h, news := s.history, News(s, a);
    if news == [] {
      assert h + news == h;
    } else {
      ReplayOne(h, news[0]);
      if |news| == 1 {
        assert news == [news[0]];
      } else {
        ReplayOne(h + [news[0]], news[1]);
        assert h + news == h + [news[0]] + [news[1]];
      }
    }
  }

  lemma StepHonest(s: State, a: Action, unwraps: bool)
    requires Shape(s) && Can(s, a) && Honest(s)
    ensures Honest(Do(s, a, unwraps))
  {
    hide Can, CallOk, Do, News, Past, Replay, Truthful;
    StepNews(s, a, unwraps);
    StepReplay(s, a);
    StepPast(s, a);
    var t := Do(s, a, unwraps);
    forall e | e in t.history
      ensures Truthful(e, t.ips)
    {
      assert e in s.history || e in News(s, a);
    }
    forall c | 0 <= c < |t.pcs|
      ensures CallOk(t.history, c, t.pcs[c])
    {
      if c == a.c {
        OwnCall(s, a, unwraps);
      } else {
        OtherCalls(s, a, c);
      }
    }
  }

  lemma {:induction false} AlwaysHonest(states: seq<State>, actions: seq<Action>, unwraps: bool, i: nat)
    requires Execution(states, actions, unwraps) && i < |states|
    ensures Shape(states[i]) && Honest(states[i])
  {
    hide Can, Do, Honest, Shape;
    if i == 0 {
      InitialShape(states[0]);
      InitialHonest(states[0]);
    } else {
      AlwaysHonest(states, actions, unwraps, i - 1);
      StepShape(states[i - 1], actions[i - 1], unwraps);
      StepHonest(states[i - 1], actions[i - 1], unwraps);
    }
  }

  lemma InitialHonest(s: State)
    requires Initial(s)
    ensures Honest(s)
  {}

  /**
   What the registry kept from `since` to k is at every moment the latest registration of
   the id, with the address and the stream of the connection that made it.
   */
  lemma KeptIsLatest(h: seq<Event>, ips: seq<IpAddr>, since: nat, k: nat, id: PeerId, entry: Entry)
    requires since <= k < |h| && Kept(h[..k + 1], since, id, entry)
    requires forall e | e in h :: Truthful(e, ips)
    ensures forall j | since <= j <= k :: Latest(h[..j], id, entry)
    ensures entry.conn < |ips| && entry.ip == ips[entry.conn]
  {
    hide Replay, Latest;
    forall j | since <= j <= k
      ensures Latest(h[..j], id, entry)
    {
      assert h[..k + 1][..j] == h[..j];
      ReplayIsLatest(h[..j], id, entry);
    }
    LatestIsTruthful(h[..k], ips, id, entry);
  }

  lemma LatestIsTruthful(h: seq<Event>, ips: seq<IpAddr>, id: PeerId, entry: Entry)
    requires Latest(h, id, entry) && forall e | e in h :: Truthful(e, ips)
    ensures entry.conn < |ips| && entry.ip == ips[entry.conn]
  {
    var i: nat :| LatestAt(h, i, id, entry);
    assert h[i] in h;
  }

  /**
   Relay history. On every run, when a probe of id reports success as the k-th event, then
   within that one call SYNC was written to the stream found under id, and after it a
   ProbeAck was read from that stream; the stream is that of the latest registration of id
   at every moment from the lookup to the report, and the address reported is its peer's.
   */
  lemma ProbeIsWitnessed(states: seq<State>, actions: seq<Action>, unwraps: bool, i: nat, k: nat)
    requires Execution(states, actions, unwraps) && i < |states|
    requires k < |states[i].history| && states[i].history[k].ProbeOk?
    ensures var h, ips := states[i].history, states[i].ips; var p := h[k];
      && p.since < k && h[p.since] == Found(p.task, p.id, p.entry)
      && Own(h[p.since..k + 1], p.task) ==
           [Found(p.task, p.id, p.entry), Wrote(p.task, p.entry.conn, Command(Sync)),
            Acked(p.task, p.entry.conn, ProbeAck), p]
      && p.entry.conn < |ips| && p.info.ip == p.entry.ip == ips[p.entry.conn] && p.info.peerId == p.id
      && forall j | p.since <= j <= k :: Latest(h[..j], p.id, p.entry)
  {
    hide Can, Do, Kept, Latest, Own, Truthful;
    AlwaysHonest(states, actions, unwraps, i);
    var h := states[i].history;
    assert PastOk(h, k);
    KeptIsLatest(h, states[i].ips, h[k].since, k, h[k].id, h[k].entry);
  }

  lemma {:induction false} RegisteredBefore(h: seq<Event>, id: PeerId)
    ensures id in Replay(h) <==> exists j :: 0 <= j < |h| && Registers(h[j], id)
  {
    if h != [] {
      var n := |h| - 1;
      RegisteredBefore(h[..n], id);
      assert Registers(h[n], id) ==> id in Replay(h);
      assert forall j | 0 <= j < n :: h[..n][j] == h[j];
    }
  }

  /**
   On every run, a lookup that finds nothing means that nobody has registered the id so far,
   and one that finds an entry has found the latest registration.
   */
  lemma LookupIsExact(states: seq<State>, actions: seq<Action>, unwraps: bool, i: nat, k: nat)
    requires Execution(states, actions, unwraps) && i < |states| && k < |states[i].history|
    ensures var h := states[i].history;
      && (h[k].Missing? ==> forall j | 0 <= j < k :: !Registers(h[j], h[k].id))
      && (h[k].Found? ==> Latest(h[..k], h[k].id, h[k].entry))
  {
    hide Can, Do, Witnessed, Forwarded, Latest, Replay, Truthful;
    AlwaysHonest(states, actions, unwraps, i);
    var h := states[i].history;
    assert PastOk(h, k);
    if h[k].Missing? {
      RegisteredBefore(h[..k], h[k].id);
      forall j | 0 <= j < k
        ensures !Registers(h[j], h[k].id)
      {
        assert h[..k][j] == h[j];
      }
    } else if h[k].Found? {
      ReplayIsLatest(h[..k], h[k].id, h[k].entry);
    }
  }

  /**
   The same for requests to connect: success means that, within the call, the command to
   connect to the requester's address was written to the stream found under the id.
   */
  lemma ConnectIsForwarded(states: seq<State>, actions: seq<Action>, unwraps: bool, i: nat, k: nat)
    requires Execution(states, actions, unwraps) && i < |states|
    requires k < |states[i].history| && states[i].history[k].ConnectOk?
    ensures var h, ips := states[i].history, states[i].ips; var p := h[k];
      && p.since < k && h[p.since] == Found(p.task, p.id, p.entry)
      && Own(h[p.since..k + 1], p.task) ==
           [Found(p.task, p.id, p.entry), Wrote(p.task, p.entry.conn, Command(ConnectTo(p.ip))), p]
      && p.task < |ips| && p.ip == ips[p.task] && p.entry.conn < |ips|
      && forall j | p.since <= j <= k :: Latest(h[..j], p.id, p.entry)
  {
    hide Can, Do, Kept, Latest, Own;
    AlwaysHonest(states, actions, unwraps, i);
    var h := states[i].history;
    assert h[k] in h;
    assert PastOk(h, k);
    KeptIsLatest(h, states[i].ips, h[k].since, k, h[k].id, h[k].entry);
  }

  // ---------------------------------------------------------------- the first registration of an id

  /**
   A task that registered an id for the first time has stopped and did nothing more, as the
   `unwrap` at line 167 of relay.rs has it.
   */
  ghost predicate Fatal(h: seq<Event>, pcs: seq<Pc>) {
    forall j | 0 <= j < |h| && h[j].Inserted? && h[j].id !in Replay(h[..j]) :: FatalAt(h, pcs, j)
  }

  ghost predicate FatalAt(h: seq<Event>, pcs: seq<Pc>, j: nat)
    requires j < |h|
  {
    && h[j].task < |pcs| && pcs[h[j].task].Stopped?
    && forall k | j < k < |h| :: h[k].task != h[j].task
  }

  /** A task that goes on after registering an id was not the first to register it. */
  lemma Survives(h: seq<Event>, pcs: seq<Pc>, j: nat, k: nat)
    requires Fatal(h, pcs) && j < k < |h| && h[j].Inserted? && h[k].task == h[j].task
    ensures h[j].id in Replay(h[..j])
  {}

  /** A task that has stopped takes no step of its own. */
  lemma StoppedStays(s: State, a: Action)
    requires Shape(s) && Can(s, a) && s.pcs[a.c].Stopped?
    ensures News(s, a) == [] && Do(s, a, true).pcs == s.pcs
  {
    hide ParseRelay, EncodePeer;
  }

  lemma StepFatal(s: State, a: Action)
    requires Shape(s) && Can(s, a) && Honest(s) && Fatal(s.history, s.pcs)
    ensures Fatal(Do(s, a, true).history, Do(s, a, true).pcs)
  {
    hide ParseRelay, EncodePeer, Replay, CallOk, Past, Truthful;
    var t, h, news := Do(s, a, true), s.history, News(s, a);
    StepNews(s, a, true);
    if s.pcs[a.c].Stopped? {
      StoppedStays(s, a);
      assert t.history == h;
    } else {
      assert a.Insert? && s.pcs[a.c].id !in s.registry ==> t.pcs[a.c].Stopped?;
      assert forall e | e in news :: e.Inserted? ==> a.Insert? && news == [e] && e.id == s.pcs[a.c].id;
      hide Do, Can, News;
      forall j | 0 <= j < |t.history| && t.history[j].Inserted? && t.history[j].id !in Replay(t.history[..j])
        ensures FatalAt(t.history, t.pcs, j)
      {
        if j < |h| {
          assert t.history[..j] == h[..j];
          assert FatalAt(h, s.pcs, j);
        } else {
          assert t.history[j] in news;
          assert t.history[..j] == h;
        }
      }
    }
  }

  /** As written, on every run, whoever registers an id for the first time is gone afterwards. */
  lemma {:induction false} AlwaysFatal(states: seq<State>, actions: seq<Action>, i: nat)
    requires Execution(states, actions, true) && i < |states|
    ensures Fatal(states[i].history, states[i].pcs)
  {
    hide Can, Do, Honest, Shape, Fatal;
    if i == 0 {
      assert Fatal(states[0].history, states[0].pcs) by {
        NothingFatal(states[0]);
      }
    } else {
      AlwaysFatal(states, actions, i - 1);
      AlwaysHonest(states, actions, true, i - 1);
      StepFatal(states[i - 1], actions[i - 1]);
    }
  }

  lemma NothingFatal(s: State)
    requires Initial(s)
    ensures Fatal(s.history, s.pcs)
  {}

  /** The event that registered id for the first time. */
  lemma {:induction false} FirstRegistration(h: seq<Event>, id: PeerId) returns (i: nat)
    requires id in Replay(h)
    ensures i < |h| && Registers(h[i], id) && id !in Replay(h[..i])
  {
    var n := |h| - 1;
    if id in Replay(h[..n]) {
      i := FirstRegistration(h[..n], id);
      assert h[..n][..i] == h[..i];
    } else {
      i := n;
    }
  }
}
