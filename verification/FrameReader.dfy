/**
 The incremental reader: parse the buffer, and while that says "incomplete", append
 whatever the next read delivers and parse again from the start.
 */
module FrameReader {
  import opened Bytes
  import opened Chunks
  import opened Peers
  import opened RelayFrames

  // ---------------------------------------------------------------- parsers worth retrying

  /**
   A verdict, once reached, is not changed by more input, a frame takes at least one octet
   and none that is not there, and `most` octets always suffice for a verdict.
   */
  ghost predicate Steady<F(!new)>(parse: seq<byte> -> Parse<F>, most: nat) {
    && (forall s :: parse(s).Done? ==> 0 < parse(s).used <= |s|)
    && (forall s, more :: !parse(s).Incomplete? ==> parse(s + more) == parse(s))
    && (forall s :: parse(s).Incomplete? ==> |s| < most)
    && parse([]).Incomplete?
  }

  lemma RelayVerdictKept(s: seq<byte>, more: seq<byte>)
    ensures !ParseRelay(s).Incomplete? ==> ParseRelay(s + more) == ParseRelay(s)
  {
    if |s| >= 65 {
      assert (s + more)[1..65] == s[1..65];
    }
  }

  /** No relay frame needs more than 65 octets. */
  lemma RelaySteady()
    ensures Steady(ParseRelay, 65)
  {
    forall s: seq<byte>, more: seq<byte>
      ensures !ParseRelay(s).Incomplete? ==> ParseRelay(s + more) == ParseRelay(s)
    {
      RelayVerdictKept(s, more);
    }
  }

  lemma InfoVerdictKept(s: seq<byte>, more: seq<byte>)
    ensures !DecodePeerInfo(s).Incomplete? ==> DecodePeerInfo(s + more) == DecodePeerInfo(s)
  {
    hide FromBigEndian;
    if |s| >= 33 {
      assert (s + more)[1..5] == s[1..5];
      assert (s + more)[1..17] == s[1..17];
      assert (s + more)[17..33] == s[17..33];
    }
  }

  lemma PeerVerdictKept(s: seq<byte>, more: seq<byte>)
    ensures !ParsePeer(s).Incomplete? ==> ParsePeer(s + more) == ParsePeer(s)
  {
    hide DecodePeerInfo;
    if |s| >= 2 {
      InfoVerdictKept(s[2..], more);
      assert (s + more)[2..] == s[2..] + more;
    }
    if |s| >= 6 {
      assert (s + more)[2..6] == s[2..6];
    }
  }

  /** No peer frame needs more than 35 octets. */
  lemma PeerSteady()
    ensures Steady(ParsePeer, 35)
  {
    forall s: seq<byte>, more: seq<byte>
      ensures !ParsePeer(s).Incomplete? ==> ParsePeer(s + more) == ParsePeer(s)
    {
      PeerVerdictKept(s, more);
    }
  }

  // ---------------------------------------------------------------- one frame

  datatype ReadResult<F> = Frame(frame: F) | Closed | Reset | DecodeError

  /** What reading one frame from a complete stream should give. */
  function WholeParse<F>(parse: seq<byte> -> Parse<F>, bytes: seq<byte>): ReadResult<F> {
    match parse(bytes)
    case Done(frame, _) => Frame(frame)
    case Invalid => DecodeError
    case Incomplete => if bytes == [] then Closed else Reset
  }

  /** A stream and the buffer its reader keeps between frames. */
  class Connection {
    const input: Input
    var buffer: seq<byte>

    ghost predicate Valid()
      reads this, input
    {
      input.Valid()
    }

    /** All octets not yet handed out as frames. */
    ghost function Pending(): seq<byte>
      requires Valid()
      reads this, input
    {
      buffer + input.stream[input.taken..]
    }

    constructor (input: Input)
      requires input.Valid()
      ensures Valid() && this.input == input && buffer == []
    {
      this.input := input;
      buffer := [];
    }

    /** Line 30: one read appends to the buffer what was pending on the stream. */
    method ReadMore() returns (more: bool)
      requires Valid()
      modifies this, input
      ensures Valid() && Pending() == old(Pending()) && old(buffer) <= buffer
      ensures input.calls == old(input.calls) + 1
      ensures more ==> old(input.taken) < input.taken && |buffer| > |old(buffer)|
      ensures !more ==> buffer == old(buffer) == Pending() && input.taken == |input.stream|
    {
      ghost var taken := input.taken;
      var chunk := input.Take(|input.stream| + 1);
      assert input.stream[taken..] == chunk + input.stream[input.taken..];
      assert (buffer + chunk) + input.stream[input.taken..] == buffer + input.stream[taken..];
      buffer := buffer + chunk;
      more := chunk != [];
    }

    /**
     read_frame_given_stream, lines 11-45. For every chunking the verdict is that of parsing
     the buffer and the entire rest of the stream at once. The frame stays in the buffer.
     */
    method ReadFrame<F(!new)>(parse: seq<byte> -> Parse<F>, ghost most: nat) returns (result: ReadResult<F>)
      requires Valid() && Steady(parse, most)
      modifies this, input
      ensures Valid() && Pending() == old(Pending()) && old(buffer) <= buffer
      ensures result == WholeParse(parse, Pending())
      ensures result.Closed? <==> Pending() == []
      ensures result.Frame? <==> parse(buffer).Done?
      ensures result.Frame? ==> parse(buffer) == parse(Pending())
      ensures result.Closed? || result.Reset? ==> input.taken == |input.stream|
      ensures input.calls <= old(input.calls) + most
      ensures !parse(old(buffer)).Incomplete? ==> buffer == old(buffer) && input.calls == old(input.calls)
    {
      ghost var before := buffer;
      while true
        invariant Valid() && Pending() == old(Pending()) && before <= buffer
        invariant !parse(before).Incomplete? ==> buffer == before && input.calls == old(input.calls)
        invariant input.calls - old(input.calls) <= |buffer| - |before|
        invariant input.calls - old(input.calls) <= most
        decreases |input.stream| - input.taken
      {
        var parsed := parse(buffer);
        if parsed.Done? {
          return Frame(parsed.value);
        }
        if parsed.Invalid? {
          return DecodeError;
        }
        var more := ReadMore();
        if !more {
          return if buffer == [] then Closed else Reset;
        }
      }
    }

    /**
     Reading the next frame of several. As written the reader never drops a frame from its
     buffer; `drops` says whether the octets the parser advanced over are dropped, which is
     what its cursor is there for.
     */
    method NextFrame<F(!new)>(parse: seq<byte> -> Parse<F>, ghost most: nat, drops: bool)
      returns (result: ReadResult<F>)
      requires Valid() && Steady(parse, most)
      modifies this, input
      ensures Valid() && result == WholeParse(parse, old(Pending()))
      ensures Pending() ==
              if drops && result.Frame? then old(Pending())[parse(old(Pending())).used..] else old(Pending())
      ensures !drops && result.Frame? ==> parse(buffer).Done?
      ensures result.Closed? || result.Reset? ==> input.taken == |input.stream|
      ensures input.calls <= old(input.calls) + most
      ensures !parse(old(buffer)).Incomplete? ==> input.calls == old(input.calls)
    {
      result := ReadFrame(parse, most);
      if drops && result.Frame? {
        ghost var k := parse(buffer).used;
        assert Pending()[k..] == buffer[k..] + input.stream[input.taken..];
        buffer := buffer[parse(buffer).used..];
      }
    }
  }

  /** As written, a second read returns the first frame again, without touching the stream. */
  method ReadTwiceAsWritten<F(!new)>(c: Connection, parse: seq<byte> -> Parse<F>, ghost most: nat)
    returns (first: ReadResult<F>, second: ReadResult<F>, ghost once: nat)
    requires c.Valid() && Steady(parse, most)
    modifies c, c.input
    ensures first == second == WholeParse(parse, old(c.Pending()))
    ensures once <= old(c.input.calls) + most
    ensures first.Frame? ==> c.input.calls == once
  {
    first := c.NextFrame(parse, most, false);
    once := c.input.calls;
    second := c.NextFrame(parse, most, false);
  }

  // ---------------------------------------------------------------- many frames

  datatype Ending = Clean | Broken | Malformed

  /** All frames at the front of a stream, and how the stream ends after them. */
  function ParseAll<F>(parse: seq<byte> -> Parse<F>, bytes: seq<byte>): (seq<F>, Ending)
    decreases |bytes|
  {
    match parse(bytes)
    case Invalid => ([], Malformed)
    case Incomplete => ([], if bytes == [] then Clean else Broken)
    case Done(frame, used) =>
      if used == 0 || used > |bytes| then ([frame], Malformed)
      else
        var (frames, ending) := ParseAll(parse, bytes[used..]);
        ([frame] + frames, ending)
  }

  /** Reading until there is no further frame, as the connection loop does. */
  method ReadAll<F(!new)>(c: Connection, parse: seq<byte> -> Parse<F>, ghost most: nat)
    returns (frames: seq<F>, ending: Ending)
    requires c.Valid() && Steady(parse, most)
    modifies c, c.input
    ensures (frames, ending) == ParseAll(parse, old(c.Pending()))
  {
    ghost var all := ParseAll(parse, c.Pending());
    frames := [];
    assert [] + all.0 == all.0;
    while true
      invariant c.Valid()
      invariant all == Prepend(frames, ParseAll(parse, c.Pending()))
      decreases |c.Pending()|
    {
      ghost var pending := c.Pending();
      NextOfAll(parse, most, pending, frames);
      hide ParseAll, Prepend;
      var result := c.NextFrame(parse, most, true);
      match result {
        case Frame(frame) => frames := frames + [frame];
        case Closed => return frames, Clean;
        case Reset => return frames, Broken;
        case DecodeError => return frames, Malformed;
      }
    }
  }

  function Prepend<F>(frames: seq<F>, rest: (seq<F>, Ending)): (seq<F>, Ending) {
    (frames + rest.0, rest.1)
  }

  /** How the frames already read and what a read of the rest gives make up all frames. */
  lemma NextOfAll<F(!new)>(parse: seq<byte> -> Parse<F>, most: nat, bytes: seq<byte>, frames: seq<F>)
    requires Steady(parse, most)
    ensures var all := Prepend(frames, ParseAll(parse, bytes));
      match WholeParse(parse, bytes)
      case Frame(frame) => all == Prepend(frames + [frame], ParseAll(parse, bytes[parse(bytes).used..]))
      case Closed => all == (frames, Clean)
      case Reset => all == (frames, Broken)
      case DecodeError => all == (frames, Malformed)
  {
    assert frames + [] == frames;
    if parse(bytes).Done? {
      var rest := ParseAll(parse, bytes[parse(bytes).used..]);
      var frame := parse(bytes).value;
      assert frames + ([frame] + rest.0) == (frames + [frame]) + rest.0;
    }
  }

  function EncodeAll<F>(encode: F -> seq<byte>, frames: seq<F>): seq<byte> {
    if frames == [] then [] else EncodeAll(encode, frames[..|frames| - 1]) + encode(frames[|frames| - 1])
  }

  lemma {:induction false} EncodeAllAppend<F>(encode: F -> seq<byte>, a: seq<F>, b: seq<F>)
    ensures EncodeAll(encode, a + b) == EncodeAll(encode, a) + EncodeAll(encode, b)
  {
    if b == [] {
      assert a + b == a;
    } else {
      var n := |b| - 1;
      assert (a + b)[..|a| + n] == a + b[..n];
      EncodeAllAppend(encode, a, b[..n]);
    }
  }

  lemma EncodeAllFirst<F>(encode: F -> seq<byte>, frames: seq<F>)
    requires frames != []
    ensures EncodeAll(encode, frames) == encode(frames[0]) + EncodeAll(encode, frames[1..])
  {
    assert EncodeAll(encode, [frames[0]]) == encode(frames[0]);
    assert frames == [frames[0]] + frames[1..];
    EncodeAllAppend(encode, [frames[0]], frames[1..]);
  }

  /** A proper prefix of a frame's octets is never taken for anything. */
  lemma PrefixIncomplete<F(!new)>(parse: seq<byte> -> Parse<F>, most: nat, s: seq<byte>, j: nat)
    requires Steady(parse, most) && parse(s).Done? && parse(s).used == |s| && j < |s|
    ensures parse(s[..j]).Incomplete?
  {
    assert s == s[..j] + s[j..];
  }

  /** The parser gives back f, up to `normal`, from its encoding and anything after it. */
  ghost predicate Faithful<F(!new)>(parse: seq<byte> -> Parse<F>, encode: F -> seq<byte>, normal: F -> F, f: F) {
    forall rest :: parse(encode(f) + rest) == Done(normal(f), |encode(f)|)
  }

  function Each<F>(normal: F -> F, frames: seq<F>): (r: seq<F>)
    ensures |r| == |frames| && forall i | 0 <= i < |r| :: r[i] == normal(frames[i])
  {
    if frames == [] then [] else [normal(frames[0])] + Each(normal, frames[1..])
  }

  /** The frames written come back in order, and a stream cut inside a frame breaks only there. */
  lemma {:induction false} FramesComeBack<F(!new)>(parse: seq<byte> -> Parse<F>, most: nat, encode: F -> seq<byte>,
                                                   normal: F -> F, frames: seq<F>, tail: seq<byte>)
    requires Steady(parse, most) && parse(tail).Incomplete?
    requires forall f | f in frames :: Faithful(parse, encode, normal, f)
    ensures ParseAll(parse, EncodeAll(encode, frames) + tail) ==
            (Each(normal, frames), if tail == [] then Clean else Broken)
  {
    if frames == [] {
      assert EncodeAll(encode, frames) + tail == tail;
    } else {
      var f, rest := frames[0], frames[1..];
      EncodeAllFirst(encode, frames);
      var bytes := EncodeAll(encode, frames) + tail;
      assert bytes == encode(f) + (EncodeAll(encode, rest) + tail);
      assert Faithful(parse, encode, normal, f);
      assert bytes[|encode(f)|..] == EncodeAll(encode, rest) + tail;
      FramesComeBack(parse, most, encode, normal, rest, tail);
    }
  }

  function Same<F>(f: F): F {
    f
  }

  /** Everything written to the relay is read back exactly, up to the point where a stream is cut. */
  lemma RelayFramesComeBack(frames: seq<RelayFrame>, cut: RelayFrame, j: nat)
    requires j < |EncodeRelay(cut)|
    ensures ParseAll(ParseRelay, EncodeAll(EncodeRelay, frames) + EncodeRelay(cut)[..j]) ==
            (frames, if j == 0 then Clean else Broken)
  {
    hide ParseRelay, EncodeRelay;
    RelaySteady();
    forall f | f in frames
      ensures Faithful(ParseRelay, EncodeRelay, Same, f)
    {
      RelayFaithful(f);
    }
    RelayFaithful(cut);
    assert EncodeRelay(cut) + [] == EncodeRelay(cut);
    PrefixIncomplete(ParseRelay, 65, EncodeRelay(cut), j);
    FramesComeBack(ParseRelay, 65, EncodeRelay, Same, frames, EncodeRelay(cut)[..j]);
    assert Each(Same, frames) == frames;
  }

  lemma RelayFaithful(f: RelayFrame)
    ensures Faithful(ParseRelay, EncodeRelay, Same, f)
  {
    forall rest: seq<byte>
      ensures ParseRelay(EncodeRelay(f) + rest) == Done(f, |EncodeRelay(f)|)
    {
      RelayRoundTrip(f, rest);
    }
  }

  lemma PeerFaithful(f: PeerFrame)
    requires !TooLong(f)
    ensures Faithful(ParsePeer, EncodePeer, NormalFrame, f)
  {
    forall rest: seq<byte>
      ensures ParsePeer(EncodePeer(f) + rest) == Done(NormalFrame(f), |EncodePeer(f)|)
    {
      PeerRoundTrip(f, rest);
    }
  }

  /** As above for what the relay writes, when no command names an IPv6 address. */
  lemma PeerFramesComeBack(frames: seq<PeerFrame>, cut: PeerFrame, j: nat)
    requires j < |EncodePeer(cut)| && !TooLong(cut)
    requires forall f | f in frames :: !TooLong(f)
    ensures ParseAll(ParsePeer, EncodeAll(EncodePeer, frames) + EncodePeer(cut)[..j]) ==
            (Each(NormalFrame, frames), if j == 0 then Clean else Broken)
  {
    hide ParsePeer, EncodePeer, NormalFrame;
    PeerSteady();
    forall f | f in frames
      ensures Faithful(ParsePeer, EncodePeer, NormalFrame, f)
    {
      PeerFaithful(f);
    }
    PeerFaithful(cut);
    assert EncodePeer(cut) + [] == EncodePeer(cut);
    PrefixIncomplete(ParsePeer, 35, EncodePeer(cut), j);
    FramesComeBack(ParsePeer, 35, EncodePeer, NormalFrame, frames, EncodePeer(cut)[..j]);
  }

  /** Exactly which sequences of frames survive the trip to a peer. */
  lemma {:induction false} PeerFramesComeBackIff(frames: seq<PeerFrame>)
    ensures ParseAll(ParsePeer, EncodeAll(EncodePeer, frames)) == (Each(NormalFrame, frames), Clean)
            <==> forall f | f in frames :: !TooLong(f)
  {
    hide ParsePeer, EncodePeer;
    if forall f | f in frames :: !TooLong(f) {
      PeerFramesComeBack(frames, Command(Sync), 0);
      assert EncodeAll(EncodePeer, frames) + EncodePeer(Command(Sync))[..0] == EncodeAll(EncodePeer, frames);
    } else {
      var f, rest := frames[0], frames[1..];
      EncodeAllFirst(EncodePeer, frames);
      PeerRoundTrip(f, EncodeAll(EncodePeer, rest));
      var bytes := EncodeAll(EncodePeer, frames);
      if ParseAll(ParsePeer, bytes) == (Each(NormalFrame, frames), Clean) {
        assert Each(NormalFrame, frames)[0] == NormalFrame(f);
        assert !TooLong(f);
        assert bytes[|EncodePeer(f)|..] == EncodeAll(EncodePeer, rest);
        assert Each(NormalFrame, frames)[1..] == Each(NormalFrame, rest);
        PeerFramesComeBackIff(rest);
      }
    }
  }

  /** Taking a frame moves its octets from the buffer to the requests. */
  lemma TakenFrame(requests: seq<RelayFrame>, buffer: seq<byte>)
    requires ParseRelay(buffer).Done?
    ensures EncodeAll(EncodeRelay, requests + [ParseRelay(buffer).value]) + buffer[ParseRelay(buffer).used..]
         == EncodeAll(EncodeRelay, requests) + buffer
  {
    hide ParseRelay, EncodeRelay;
    var f, used := ParseRelay(buffer).value, ParseRelay(buffer).used;
    RelayCanonical(buffer);
    assert (requests + [f])[..|requests|] == requests;
    assert buffer == buffer[..used] + buffer[used..];
  }
}
