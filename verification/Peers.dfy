/** Peer identities and the 33-octet record that describes a peer. */
module Peers {
  import opened Bytes

  datatype Option<T> = None | Some(value: T)

  /** The outcome of a parser: a value and the octets it took, too little input, or a malformed one. */
  datatype Parse<T> = Done(value: T, used: nat) | Incomplete | Invalid

  const PEER_ID_LENGTH := 64

  const PEER_INFO_LENGTH := 33

  function Zeros(n: nat): (s: seq<byte>)
    ensures |s| == n
  {
    seq(n, i => 0)
  }

  type PeerId = s: seq<byte> | |s| == 64 witness Zeros(64)

  const NO_ID: PeerId := Zeros(64)

  type Octets4 = s: seq<byte> | |s| == 4 witness Zeros(4)

  type Octets16 = s: seq<byte> | |s| == 16 witness Zeros(16)

  datatype IpAddr = V4(v4: Octets4) | V6(v6: Octets16)

  const U64 := 0x1_0000_0000_0000_0000

  /** A duration in nanoseconds: whole seconds in 64 bits, and less than a second more. */
  type Duration = n: nat | n < U64 * 1_000_000_000

  function Millis(d: Duration): nat {
    d / 1_000_000
  }

  function FromMillis(ms: nat): Duration
    requires ms < U64
  {
    ms * 1_000_000
  }

  datatype PeerInfo = PeerInfo(peerId: PeerId, ip: IpAddr, pingRtt: Duration)

  function EncodeIp(ip: IpAddr): (s: seq<byte>)
    ensures |s| == 17
  {
    match ip
    case V4(o) => [0] + o + Zeros(12)
    case V6(o) => [1] + o
  }

  function EncodePeerInfo(info: PeerInfo): (s: seq<byte>)
    ensures |s| == PEER_INFO_LENGTH
  {
    EncodeIp(info.ip) + ToBigEndian(Millis(info.pingRtt), 16)
  }

  function DecodePeerInfo(s: seq<byte>): Parse<PeerInfo> {
    if |s| < PEER_INFO_LENGTH then Incomplete
    else if s[0] > 1 then Invalid
    else
      var ip := if s[0] == 0 then V4(s[1..5]) else V6(s[1..17]);
      Done(PeerInfo(NO_ID, ip, FromMillis(FromBigEndian(s[17..33]) % U64)), PEER_INFO_LENGTH)
  }

  /** What a record keeps of a peer: not its id, and its round-trip time in whole milliseconds modulo 2^64. */
  function Normal(info: PeerInfo): PeerInfo {
    PeerInfo(NO_ID, info.ip, FromMillis(Millis(info.pingRtt) % U64))
  }

  lemma MillisFit(d: Duration)
    ensures Millis(d) < Span(16)
  {
    Widths();
  }

  lemma PeerInfoRoundTrip(info: PeerInfo, rest: seq<byte>)
    ensures DecodePeerInfo(EncodePeerInfo(info) + rest) == Done(Normal(info), PEER_INFO_LENGTH)
  {
    hide FromBigEndian, ToBigEndian;
    MillisFit(info.pingRtt);
    DecodeEncode(Millis(info.pingRtt), 16);
    var s := EncodePeerInfo(info) + rest;
    assert s[17..33] == ToBigEndian(Millis(info.pingRtt), 16);
    match info.ip {
      case V4(o) => assert s[1..5] == o;
      case V6(o) => assert s[1..17] == o;
    }
  }

  /** The record is accurate to a millisecond exactly when the time in milliseconds fits 64 bits. */
  lemma NormalAccuracy(info: PeerInfo)
    ensures Normal(info).pingRtt <= info.pingRtt
    ensures info.pingRtt - Normal(info).pingRtt < 1_000_000 <==> Millis(info.pingRtt) < U64
  {
    var ms := Millis(info.pingRtt);
    if ms < U64 {
      assert ms % U64 == ms;
    } else {
      assert ms % U64 < U64;
      assert ms - ms % U64 >= 1;
    }
  }

  /** What was decoded once survives any number of further round trips. */
  lemma DecodeEncodeDecode(s: seq<byte>, rest: seq<byte>)
    requires DecodePeerInfo(s).Done?
    ensures DecodePeerInfo(EncodePeerInfo(DecodePeerInfo(s).value) + rest) == DecodePeerInfo(s)
  {
    hide FromBigEndian, EncodePeerInfo;
    var info := DecodePeerInfo(s).value;
    WholeMillis(FromBigEndian(s[17..33]) % U64);
    PeerInfoRoundTrip(info, rest);
  }

  lemma WholeMillis(ms: nat)
    requires ms < U64
    ensures Millis(FromMillis(ms)) % U64 == ms
  {
    assert Millis(FromMillis(ms)) == ms;
  }

  /** The decoder on every input: 33 octets, of which the first decides, and nothing less. */
  lemma RecordVerdicts(kind: byte, address: Octets16, ms: nat, rest: seq<byte>)
    requires ms < 0x1_0000_0000_0000_0000_0000_0000_0000_0000
    ensures DecodePeerInfo([kind] + address + ToBigEndian(ms, 16) + rest) ==
      if kind > 1 then Invalid
      else
        Done(PeerInfo(Zeros(64), if kind == 0 then V4(address[..4]) else V6(address),
                      ms % 0x1_0000_0000_0000_0000 * 1_000_000), 33)
    ensures |rest| < 33 ==> DecodePeerInfo(rest).Incomplete?
  {
    hide FromBigEndian, ToBigEndian;
    Widths();
    DecodeEncode(ms, 16);
    var s := [kind] + address + ToBigEndian(ms, 16) + rest;
    assert s[1..5] == address[..4] && s[1..17] == address && s[17..33] == ToBigEndian(ms, 16);
  }
}
