/** The peer that wants a connection: register, then probe, then connect. */
module Sender {
  import opened Bytes
  import opened Chunks
  import opened FrameReader
  import opened Peers
  import opened RelayFrames

  /** How far the octets received so far have brought the sender. */
  datatype Stage =
    | AwaitRegister
    | AwaitProbe
    | Ready(info: PeerInfo)
    | RegisterRefused
    | PeerUnknown
    | Unexpected
    | Garbled

  /** Lines 84-112, on the octets that follow the answer to the registration. */
  function ProbeStage(bytes: seq<byte>): Stage {
    match ParsePeer(bytes)
    case Incomplete => AwaitProbe
    case Invalid => Garbled
    case Done(ProbeResult(Some(info)), _) => Ready(info)
    case Done(ProbeResult(None), _) => PeerUnknown
    case Done(_, _) => Unexpected
  }

  function StageOf(bytes: seq<byte>): Stage {
    match ParsePeer(bytes)
    case Incomplete => AwaitRegister
    case Invalid => Garbled
    case Done(RegisterResult(Success), used) => ProbeStage(bytes[used..])
    case Done(RegisterResult(Failure), _) => RegisterRefused
    case Done(_, _) => Unexpected
  }

  datatype Outcome = Connecting(info: PeerInfo) | Failed(why: Stage) | ConnectionLost | Spinning

  /** The end of a read: the sender fails, or, if nothing at all is pending, asks again for ever. */
  function AtEnd(pending: seq<byte>): Outcome {
    if pending == [] then Spinning else ConnectionLost
  }

  function AfterRegister(pending: seq<byte>): Outcome {
    match ProbeStage(pending)
    case Ready(info) => Connecting(info)
    case AwaitProbe => AtEnd(pending)
    case stage => Failed(stage)
  }

  /** The first frame pending is a successful registration. */
  predicate RegistrationAnswered(bytes: seq<byte>) {
    ParsePeer(bytes).Done? && ParsePeer(bytes).value == RegisterResult(Success)
  }

  /** What the sender makes of everything the relay will ever send. */
  function OutcomeOf(bytes: seq<byte>, drops: bool): Outcome {
    match ParsePeer(bytes)
    case Incomplete => AtEnd(bytes)
    case Invalid => Failed(Garbled)
    case Done(RegisterResult(Success), used) =>
      AfterRegister(if drops then bytes[used..] else bytes)
    case Done(RegisterResult(Failure), _) => Failed(RegisterRefused)
    case Done(_, _) => Failed(Unexpected)
  }

  /** The outcome, with frames dropped once read, is the stage that all octets lead to. */
  lemma OutcomeIsStage(bytes: seq<byte>)
    ensures match StageOf(bytes)
      case Ready(info) => OutcomeOf(bytes, true) == Connecting(info)
      case AwaitRegister => OutcomeOf(bytes, true) == if bytes == [] then Spinning else ConnectionLost
      case AwaitProbe => OutcomeOf(bytes, true) == if |bytes| == 2 then Spinning else ConnectionLost
      case stage => OutcomeOf(bytes, true) == Failed(stage)
  {
    hide DecodePeerInfo;
  }

  /** Connecting needs exactly the two right answers, first and in this order. */
  lemma ConnectingIff(bytes: seq<byte>, info: PeerInfo)
    ensures OutcomeOf(bytes, true) == Connecting(info) <==>
            |bytes| >= 37 && bytes[0] == 21 && bytes[1] == 200 && bytes[2] == 22 && bytes[3] == 200
            && DecodePeerInfo(bytes[4..]) == Done(info, 33)
  {
    hide DecodePeerInfo;
    InfoNeeds33(if |bytes| >= 4 then bytes[4..] else []);
    if |bytes| >= 4 {
      assert bytes[2..][2..] == bytes[4..];
    }
  }

  lemma InfoNeeds33(s: seq<byte>)
    ensures |s| < 33 ==> DecodePeerInfo(s).Incomplete?
    ensures |s| >= 33 ==> !DecodePeerInfo(s).Incomplete?
    ensures DecodePeerInfo(s).Done? ==> DecodePeerInfo(s).used == 33
  {
    hide FromBigEndian;
  }

  /** As written, the answer to the registration is read twice and no sender ever connects. */
  lemma AsWrittenNeverConnects(bytes: seq<byte>)
    ensures !OutcomeOf(bytes, false).Connecting?
  {
    hide ParsePeer;
  }

  /** What the result of the first read decides. */
  lemma FirstAnswer(bytes: seq<byte>, drops: bool)
    ensures RegistrationAnswered(bytes) <==> WholeParse<PeerFrame>(ParsePeer, bytes) == Frame(RegisterResult(Success))
    ensures OutcomeOf(bytes, drops) ==
            match WholeParse<PeerFrame>(ParsePeer, bytes)
            case Closed => Spinning
            case Reset => ConnectionLost
            case DecodeError => Failed(Garbled)
            case Frame(RegisterResult(Success)) =>
              AfterRegister(if drops then bytes[ParsePeer(bytes).used..] else bytes)
            case Frame(RegisterResult(Failure)) => Failed(RegisterRefused)
            case Frame(_) => Failed(Unexpected)
  {
    hide ParsePeer, AfterRegister;
  }

  /** And of the second. */
  lemma SecondAnswer(bytes: seq<byte>)
    ensures AfterRegister(bytes) ==
            match WholeParse<PeerFrame>(ParsePeer, bytes)
            case Closed => Spinning
            case Reset => ConnectionLost
            case DecodeError => Failed(Garbled)
            case Frame(ProbeResult(Some(info))) => Connecting(info)
            case Frame(ProbeResult(None)) => Failed(PeerUnknown)
            case Frame(_) => Failed(Unexpected)
  {
    hide ParsePeer;
  }

  /**
   connect_to_peer, lines 29-112. The two loops retry only when the stream has ended with
   nothing pending; since that never changes, the model reports it as spinning.
   */
  method ConnectToPeer(c: Connection, relay: Output, source: PeerId, destination: PeerId, drops: bool)
    returns (outcome: Outcome)
    requires c.Valid()
    modifies c, c.input, relay
    ensures outcome == OutcomeOf(old(c.Pending()), drops)
    ensures relay.sent == old(relay.sent) + EncodeRelay(Register(source)) +
            if RegistrationAnswered(old(c.Pending())) then EncodeRelay(Probe(destination)) else []
    ensures c.input.calls <= old(c.input.calls) + 70
  {
    hide AfterRegister, AtEnd, EncodeRelay, OutcomeOf, ParsePeer, RegistrationAnswered, WholeParse;
    PeerSteady();
    FirstAnswer(c.Pending(), drops);
    relay.WriteAll(EncodeRelay(Register(source)));
    var answer := c.NextFrame(ParsePeer, 35, drops);
    match answer {
      case Closed => return Spinning;
      case Reset => return ConnectionLost;
      case DecodeError => return Failed(Garbled);
      case Frame(RegisterResult(Success)) =>
      case Frame(RegisterResult(Failure)) => return Failed(RegisterRefused);
      case Frame(_) => return Failed(Unexpected);
    }
    relay.WriteAll(EncodeRelay(Probe(destination)));
    SecondAnswer(c.Pending());
    answer := c.NextFrame(ParsePeer, 35, drops);
    match answer {
      case Closed => outcome := Spinning;
      case Reset => outcome := ConnectionLost;
      case DecodeError => outcome := Failed(Garbled);
      case Frame(ProbeResult(Some(info))) => outcome := Connecting(info);
      case Frame(ProbeResult(None)) => outcome := Failed(PeerUnknown);
      case Frame(_) => outcome := Failed(Unexpected);
    }
  }
}
