/** The frames peers send to the relay, the frames the relay sends to peers, and their parsers. */
module RelayFrames {
  import opened Bytes
  import opened Peers

  // ---------------------------------------------------------------- frames

  datatype Status = Success | Failure

  datatype Health = Healthy | Unhealthy

  datatype PeerCommand = Sync | ConnectTo(ip: IpAddr)

  datatype RelayFrame =
    | Register(id: PeerId)
    | Probe(id: PeerId)
    | DoConnect(id: PeerId)
    | Ping
    | ProbeAck

  datatype PeerFrame =
    | RegisterResult(status: Status)
    | ProbeResult(info: Option<PeerInfo>)
    | DoConnectResult(status: Status)
    | PingResult(health: Health)
    | Command(command: PeerCommand)

  // ---------------------------------------------------------------- encoders

  function EncodeRelay(f: RelayFrame): (s: seq<byte>)
    ensures 1 <= |s| <= 65
  {
    match f
    case Register(id) => [1] + id
    case Probe(id) => [2] + id
    case DoConnect(id) => [3] + id
    case Ping => [4]
    case ProbeAck => [5]
  }

  function StatusCode(s: Status): byte {
    if s.Success? then 200 else 111
  }

  function HealthCode(h: Health): byte {
    if h.Healthy? then 1 else 2
  }

  /** Lines 202-212: all octets of the address follow, 4 or 16 of them. */
  function EncodeCommand(c: PeerCommand): (s: seq<byte>)
    ensures |s| >= 1
  {
    match c
    case Sync => [100]
    case ConnectTo(V4(o)) => [101] + o
    case ConnectTo(V6(o)) => [101] + o
  }

  function EncodePeer(f: PeerFrame): (s: seq<byte>)
    ensures |s| >= 2
  {
    match f
    case RegisterResult(status) => [21, StatusCode(status)]
    case ProbeResult(None) => [22, StatusCode(Failure)]
    case ProbeResult(Some(info)) => [22, StatusCode(Success)] + EncodePeerInfo(info)
    case DoConnectResult(status) => [23, StatusCode(status)]
    case PingResult(health) => [24, HealthCode(health)]
    case Command(command) => [25] + EncodeCommand(command)
  }

  // ---------------------------------------------------------------- parsers

  function ParseId(s: seq<byte>, make: PeerId -> RelayFrame): Parse<RelayFrame>
    requires |s| >= 1
  {
    if |s| < 1 + PEER_ID_LENGTH then Incomplete else Done(make(s[1..65]), 65)
  }

  function ParseRelay(s: seq<byte>): (r: Parse<RelayFrame>)
    ensures r.Done? ==> 0 < r.used <= |s|
  {
    if s == [] then Incomplete
    else if s[0] == 1 then ParseId(s, (id: PeerId) => Register(id))
    else if s[0] == 2 then ParseId(s, (id: PeerId) => Probe(id))
    else if s[0] == 3 then ParseId(s, (id: PeerId) => DoConnect(id))
    else if s[0] == 4 then Done(Ping, 1)
    else if s[0] == 5 then Done(ProbeAck, 1)
    else Invalid
  }

  function ParseStatus(s: seq<byte>, make: Status -> PeerFrame): Parse<PeerFrame>
    requires |s| >= 1
  {
    if |s| < 2 then Incomplete
    else if s[1] == 200 then Done(make(Success), 2)
    else if s[1] == 111 then Done(make(Failure), 2)
    else Invalid
  }

  function ParseHealth(s: seq<byte>): Parse<PeerFrame>
    requires |s| >= 1
  {
    if |s| < 2 then Incomplete
    else if s[1] == 1 then Done(PingResult(Healthy), 2)
    else if s[1] == 2 then Done(PingResult(Unhealthy), 2)
    else Invalid
  }

  function ParseProbe(s: seq<byte>): Parse<PeerFrame>
    requires |s| >= 1
  {
    if |s| < 2 then Incomplete
    else if s[1] == 111 then Done(ProbeResult(None), 2)
    else if s[1] != 200 then Invalid
    else match DecodePeerInfo(s[2..])
      case Done(info, used) => Done(ProbeResult(Some(info)), 2 + used)
      case Incomplete => Incomplete
      case Invalid => Invalid
  }

  /** Lines 349-378: four octets of address are read, whatever the address was. */
  function ParseCommand(s: seq<byte>): Parse<PeerFrame>
    requires |s| >= 1
  {
    if |s| < 2 then Incomplete
    else if s[1] == 100 then Done(Command(Sync), 2)
    else if s[1] != 101 then Invalid
    else if |s| < 6 then Incomplete
    else Done(Command(ConnectTo(V4(s[2..6]))), 6)
  }

  function ParsePeer(s: seq<byte>): (r: Parse<PeerFrame>)
    ensures r.Done? ==> 0 < r.used <= |s|
  {
    if s == [] then Incomplete
    else if s[0] == 21 then ParseStatus(s, x => RegisterResult(x))
    else if s[0] == 22 then ParseProbe(s)
    else if s[0] == 23 then ParseStatus(s, x => DoConnectResult(x))
    else if s[0] == 24 then ParseHealth(s)
    else if s[0] == 25 then ParseCommand(s)
    else Invalid
  }

  // ---------------------------------------------------------------- round trips

  lemma RelayRoundTrip(f: RelayFrame, rest: seq<byte>)
    ensures ParseRelay(EncodeRelay(f) + rest) == Done(f, |EncodeRelay(f)|)
  {
    var s := EncodeRelay(f) + rest;
    if f.Register? || f.Probe? || f.DoConnect? {
      assert s[1..65] == f.id;
    }
  }

  /** Every octet of a parsed relay frame is accounted for: there is one encoding. */
  lemma RelayCanonical(s: seq<byte>)
    requires ParseRelay(s).Done?
    ensures s[..ParseRelay(s).used] == EncodeRelay(ParseRelay(s).value)
  {
    var k := ParseRelay(s).used;
    if k == 65 {
      assert s[..65] == [s[0]] + s[1..65];
    }
  }

  function NormalFrame(f: PeerFrame): PeerFrame {
    match f
    case ProbeResult(Some(info)) => ProbeResult(Some(Normal(info)))
    case _ => f
  }

  /** A command to connect to an IPv6 address, of which the parser reads too little. */
  predicate TooLong(f: PeerFrame) {
    f.Command? && f.command.ConnectTo? && f.command.ip.V6?
  }

  /** Exactly which frames the peer's parser gets back. */
  lemma PeerRoundTrip(f: PeerFrame, rest: seq<byte>)
    ensures ParsePeer(EncodePeer(f) + rest) ==
            if TooLong(f) then Done(Command(ConnectTo(V4(f.command.ip.v6[..4]))), 6)
            else Done(NormalFrame(f), |EncodePeer(f)|)
  {
    hide EncodePeerInfo, DecodePeerInfo, Normal;
    var s := EncodePeer(f) + rest;
    match f {
      case ProbeResult(Some(info)) =>
        assert s[2..] == EncodePeerInfo(info) + rest;
        PeerInfoRoundTrip(info, rest);
      case Command(ConnectTo(ip)) => ConnectRoundTrip(ip, rest);
      case _ =>
    }
  }

  lemma ConnectRoundTrip(ip: IpAddr, rest: seq<byte>)
    ensures var f := Command(ConnectTo(ip));
            ParsePeer(EncodePeer(f) + rest) ==
            Done(if ip.V4? then f else Command(ConnectTo(V4(ip.v6[..4]))), 6)
  {
    hide EncodePeerInfo, DecodePeerInfo, Normal;
    var s := EncodePeer(Command(ConnectTo(ip))) + rest;
    match ip {
      case V4(o) =>
        assert |s| >= 6 && s[2..6] == o;
      case V6(o) =>
        assert |s| >= 6 && s[2..6] == o[..4];
    }
  }

  // ---------------------------------------------------------------- the octets themselves

  /** Octet by octet, what goes to the relay, and to the peers apart from records. */
  lemma Codes(id: PeerId, ip4: Octets4, ip6: Octets16)
    ensures EncodeRelay(Register(id)) == [1] + id
    ensures EncodeRelay(Probe(id)) == [2] + id
    ensures EncodeRelay(DoConnect(id)) == [3] + id
    ensures EncodeRelay(Ping) == [4] && EncodeRelay(ProbeAck) == [5]
    ensures EncodePeer(RegisterResult(Success)) == [21, 200] && EncodePeer(RegisterResult(Failure)) == [21, 111]
    ensures EncodePeer(ProbeResult(None)) == [22, 111]
    ensures EncodePeer(DoConnectResult(Success)) == [23, 200] && EncodePeer(DoConnectResult(Failure)) == [23, 111]
    ensures EncodePeer(PingResult(Healthy)) == [24, 1] && EncodePeer(PingResult(Unhealthy)) == [24, 2]
    ensures EncodePeer(Command(Sync)) == [25, 100]
    ensures EncodePeer(Command(ConnectTo(V4(ip4)))) == [25, 101] + ip4
    ensures EncodePeer(Command(ConnectTo(V6(ip6)))) == [25, 101] + ip6
  {
    assert [25] + ([101] + ip4) == [25, 101] + ip4;
    assert [25] + ([101] + ip6) == [25, 101] + ip6;
  }

  /** A record on the wire: kind, address padded to 16 octets, and 16 octets of milliseconds. */
  lemma RecordLayout(info: PeerInfo)
    ensures var s := EncodePeer(ProbeResult(Some(info)));
      && |s| == 35 && s[..2] == [22, 200]
      && (info.ip.V4? ==> s[2..19] == [0] + info.ip.v4 + [0, 0, 0, 0, 0, 0, 0, 0, 0, 0, 0, 0])
      && (info.ip.V6? ==> s[2..19] == [1] + info.ip.v6)
      && forall j | 19 <= j < 35 :: s[j] == info.pingRtt / 1_000_000 / Span(34 - j) % 256
  {
    hide ToBigEndian, Span;
    var ms := Millis(info.pingRtt);
    var s, digits := EncodePeer(ProbeResult(Some(info))), ToBigEndian(ms, 16);
    assert s == [22, 200] + EncodeIp(info.ip) + digits;
    assert Zeros(12) == [0, 0, 0, 0, 0, 0, 0, 0, 0, 0, 0, 0];
    assert s[2..19] == EncodeIp(info.ip);
    hide EncodePeer, EncodePeerInfo, EncodeIp, Zeros;
    forall j | 19 <= j < 35
      ensures s[j] == ms / Span(34 - j) % 256
    {
      Digit(ms, 16, j - 19);
      assert s[j] == digits[j - 19];
    }
  }

  // ---------------------------------------------------------------- every verdict

  /**
   The relay's parser on every input: it waits exactly for the beginnings of frames that it
   has not all of, and refuses exactly what no frame begins with.
   */
  lemma RelayVerdicts(s: seq<byte>)
    ensures ParseRelay(s).Incomplete? <==> exists f: RelayFrame :: s < EncodeRelay(f)
    ensures ParseRelay(s).Invalid? <==> s != [] && s[0] !in {1, 2, 3, 4, 5}
  {
    if ParseRelay(s).Incomplete? {
      if s == [] {
        assert s < EncodeRelay(Ping);
      } else {
        var id: PeerId := s[1..] + Zeros(65 - |s|);
        assert s == [s[0]] + s[1..];
        assert s[1..] < id;
        var f := if s[0] == 1 then Register(id) else if s[0] == 2 then Probe(id) else DoConnect(id);
        assert EncodeRelay(f) == [s[0]] + id;
        assert s < EncodeRelay(f);
      }
    }
    forall f: RelayFrame | s < EncodeRelay(f)
      ensures ParseRelay(s).Incomplete?
    {
      if s != [] {
        assert s[0] == EncodeRelay(f)[0];
      }
    }
  }

  /** The peers' parser on every input, by the octets that decide. */
  lemma PeerVerdicts(s: seq<byte>)
    ensures ParsePeer([]).Incomplete?
    ensures s != [] && s[0] !in {21, 22, 23, 24, 25} ==> ParsePeer(s).Invalid?
    ensures |s| == 1 && s[0] in {21, 22, 23, 24, 25} ==> ParsePeer(s).Incomplete?
    ensures |s| >= 2 && s[0] in {21, 22, 23} && s[1] !in {200, 111} ==> ParsePeer(s).Invalid?
    ensures |s| >= 2 && s[0] == 24 && s[1] !in {1, 2} ==> ParsePeer(s).Invalid?
    ensures |s| >= 2 && s[0] == 25 && s[1] !in {100, 101} ==> ParsePeer(s).Invalid?
    ensures 2 <= |s| < 6 && s[0] == 25 && s[1] == 101 ==> ParsePeer(s).Incomplete?
    ensures 2 <= |s| < 35 && s[0] == 22 && s[1] == 200 ==> ParsePeer(s).Incomplete?
    ensures |s| >= 35 && s[0] == 22 && s[1] == 200 ==> (ParsePeer(s).Invalid? <==> s[2] !in {0, 1})
  {
    hide FromBigEndian;
  }
}
