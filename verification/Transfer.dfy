/** The two ends together: what a transfer achieves, and where the server falls short. */
module Transfer {
  import opened Bytes
  import opened Chunks
  import opened Crc32
  import opened TransferClient
  import opened TransferFrame
  import opened TransferServer
  import TransferVerdicts
  import Utf8

  /** The receive buffer of `run`, line 478, and the send buffer of the client, line 80. */
  const BUFFER: nat := 1024

  /** The frame's last checksum would not fit between the end of the data and the end of the buffer. */
  predicate Straddles(path: seq<byte>, data: seq<byte>) {
    Slot(11 + |path| + |data|, BUFFER) > 1020
  }

  lemma StraddlesFormula(path: seq<byte>, data: seq<byte>)
    ensures Straddles(path, data) <==> (10 + |path| + |data|) % 1024 + 1 >= 1021
  {
    SlotIsRemainder(11 + |path| + |data|, BUFFER);
  }

  /** A frame as long as its data claims can make the subtraction at line 408 go wrong. */
  ghost predicate Trips(path: seq<byte>, data: seq<byte>, offers: nat -> nat) {
    Overshoots(15 + |path| + |data|, offers, BUFFER, 11 + |path|, 11 + |path| + |data|)
  }

  lemma ServedFrame(path: seq<byte>, data: seq<byte>, offers: nat -> nat, rule: Rule)
    requires |path| <= 1013 && |data| < 0x1_0000_0000
    ensures Answer(Frame(path, data), offers, BUFFER, rule) ==
            if !Utf8.Valid(path) then Closed(File(Rejected(PathNotUtf8)))
            else if rule.AsWritten? && Trips(path, data, offers) then Died
            else if Straddles(path, data) then Closed(File(Rejected(DataChecksumCut)))
            else Closed(File(Saved(path)))
    ensures Utf8.Valid(path) ==> forall files :: FilesAfter(files, Frame(path, data), BUFFER) == files[path := data]
    ensures !Utf8.Valid(path) ==> forall files :: FilesAfter(files, Frame(path, data), BUFFER) == files
    ensures PathsAccepted(Frame(path, data), BUFFER) == if Utf8.Valid(path) then {path} else {}
  {
    hide Frame, JudgePath, JudgeSave, Slot, Stumbles, Trips, Utf8.Valid;
    FrameOperation(path, data);
    FramePath(path, data);
    FrameStumbles(path, data, offers);
    assert Frame(path, data) + [] == Frame(path, data);
    FrameVerdict(path, data, [], BUFFER);
  }

  lemma FramePath(path: seq<byte>, data: seq<byte>)
    requires |path| <= 1013 && |data| < 0x1_0000_0000
    ensures JudgePath(Frame(path, data), BUFFER) ==
            if Utf8.Valid(path) then PathAccepted(path) else PathRejected(PathNotUtf8)
  {
    hide Checksum, Frame, FromBigEndian, Part, Utf8.Valid;
    assert Frame(path, data) + [] == Frame(path, data);
    FieldsOfFrame(path, data, []);
  }

  lemma FrameStumbles(path: seq<byte>, data: seq<byte>, offers: nat -> nat)
    requires |path| <= 1013 && |data| < 0x1_0000_0000
    ensures Stumbles(Frame(path, data), offers, BUFFER) <==> Utf8.Valid(path) && Trips(path, data, offers)
  {
    hide Checksum, Frame, FromBigEndian, JudgePath, Overshoots, Part, Utf8.Valid;
    assert Frame(path, data) + [] == Frame(path, data);
    FieldsOfFrame(path, data, []);
    FramePath(path, data);
  }

  /**
   End to end, for every path and every file. The client reads the file in pieces chosen by
   `fileOffers` and streams one frame, or gives up without writing; the server receives what
   was written in pieces chosen by `socketOffers`.
   */
  method SendAndServe(path: seq<byte>, data: seq<byte>, fileOffers: nat -> nat, socketOffers: nat -> nat,
                      rule: Rule, disk: Disk)
    returns (sent: SendOutcome, response: Response)
    modifies disk
    ensures sent == if |path| >= 0x1_0000 then SendOutcome.Panicked
                    else if |data| >= 0x1_0000_0000 then TooLarge
                    else if |path| > 1013 then SendOutcome.Panicked
                    else Sent
    ensures response ==
            if !sent.Sent? then Closed(NoRequest)
            else if !Utf8.Valid(path) then Closed(File(Rejected(PathNotUtf8)))
            else if rule.AsWritten? && Trips(path, data, socketOffers) then Died
            else if Straddles(path, data) then Closed(File(Rejected(DataChecksumCut)))
            else Closed(File(Saved(path)))
    ensures disk.files ==
            if sent.Sent? && Utf8.Valid(path) then old(disk.files)[path := data] else old(disk.files)
    ensures disk.parents == old(disk.parents) + if sent.Sent? && Utf8.Valid(path) then {path} else {}
  {
    hide Frame, Answer, FilesAfter, PathsAccepted, Straddles, Trips, Utf8.Valid;
    var file := new Input(data, fileOffers);
    var wire := new Output();
    sent := SendFile(path, file, wire, BUFFER);
    var socket := new Input(wire.sent, socketOffers);
    response := Serve(socket, BUFFER, rule, disk);
    if sent.Sent? {
      FrameOperation(path, data);
      ServedFrame(path, data, socketOffers, rule);
    } else {
      NothingSent(socketOffers, rule);
    }
  }

  lemma NothingSent(offers: nat -> nat, rule: Rule)
    ensures Answer([], offers, BUFFER, rule) == Closed(NoRequest)
  {}

  /**
   The connection is lost after k octets of a frame. The server reports how far it came; only
   when all data had arrived can it, as written, die instead.
   */
  lemma CutTransfer(path: seq<byte>, data: seq<byte>, k: nat, offers: nat -> nat, rule: Rule)
    requires |path| <= 1013 && |data| < 0x1_0000_0000 && k < |Frame(path, data)|
    ensures var answer := Answer(Frame(path, data)[..k], offers, BUFFER, rule);
      if k == 0 then answer == Closed(NoRequest)
      else
        var why :=
          if k < 3 then PathLengthCut
          else if k < 3 + |path| then PathCut
          else if !Utf8.Valid(path) then PathNotUtf8
          else if k < 7 + |path| then PathChecksumCut
          else if k < 11 + |path| then DataLengthCut
          else if k < 11 + |path| + |data| then DataCut
          else DataChecksumCut;
        || answer == Closed(File(Rejected(why)))
        || (rule.AsWritten? && why == DataChecksumCut && answer == Died)
  {
    hide Frame, FilesAfter, JudgePath, JudgeSave, PathsAccepted, Stumbles, Utf8.Valid;
    FrameOperation(path, data);
    TransferVerdicts.CutFrame(path, data, k, BUFFER, map[]);
    if Stumbles(Frame(path, data)[..k], offers, BUFFER) {
      StumblesOnWhole(Frame(path, data)[..k], offers);
    }
    if k > 0 {
      assert Frame(path, data)[..k][0] == SAVE_FILE;
    }
  }

  /** Line 408 only matters once all data has arrived. */
  lemma StumblesOnWhole(stream: seq<byte>, offers: nat -> nat)
    requires Stumbles(stream, offers, BUFFER)
    ensures JudgeSave(stream, BUFFER).Saved? || JudgeSave(stream, BUFFER).why in {DataChecksumCut, DataMismatch}
  {
    hide Checksum, FromBigEndian, JudgePath, Overshoots, Slot;
    var d := 11 + |JudgePath(stream, BUFFER).path|;
    var p := d + DataLength(stream, d - 4);
    if |stream| < p {
      TooShort(|stream|, offers, BUFFER, d, p);
    }
  }

  lemma FrameOperation(path: seq<byte>, data: seq<byte>)
    ensures Frame(path, data)[0] == SAVE_FILE
    ensures [] + Frame(path, data) == Frame(path, data)
  {
    hide Part;
  }

  // ---------------------------------------------------------------- damaged transfers

  /**
   No chunking and no reading of line 408 lets a request with a burst in its data or path
   through, and after a burst in the path no file is touched and no folder created.
   */
  lemma BurstNeverSaved(path: seq<byte>, data: seq<byte>, rest: seq<byte>, i: nat, w: seq<byte>,
                        offers: nat -> nat, rule: Rule)
    requires |path| < 0x1_0000 && |data| < 0x1_0000_0000
    requires BurstIn(path, data, i, w) && w != Frame(path, data)[i..i + |w|]
    ensures var stream := Damaged(Frame(path, data) + rest, i, w);
      && JudgeSave(stream, BUFFER).Rejected?
      && Answer(stream, offers, BUFFER, rule) in {Died, Closed(File(JudgeSave(stream, BUFFER)))}
      && SaveResult(stream, offers, BUFFER, rule) in {SaveOutcome.Panicked, Answered(JudgeSave(stream, BUFFER))}
      && (i + |w| <= 3 + |path| ==>
            PathsAccepted(stream, BUFFER) == {} && forall files :: FilesAfter(files, stream, BUFFER) == files)
  {
    hide Damaged, Frame, JudgePath, JudgeSave, Stumbles;
    BurstRejected(path, data, rest, BUFFER, i, w);
    FrameOperation(path, data);
    var stream := Damaged(Frame(path, data) + rest, i, w);
    assert stream[0] == (Frame(path, data) + rest)[0] == SAVE_FILE;
    assert JudgeRequest(stream, BUFFER) == File(JudgeSave(stream, BUFFER));
  }

  // ---------------------------------------------------------------- line 408

  /** n reads of one octet, and then all there is. */
  function Singles(n: nat, total: nat): nat -> nat {
    (j: nat) => if j < n then 1 else total
  }

  lemma {:induction false} OneByOne(total: nat, capacity: nat, n: nat, k: nat)
    requires capacity > 0 && k <= n <= total
    ensures Received(total, Singles(n, total), capacity, k) == k
  {
    if k > 0 {
      OneByOne(total, capacity, n, k - 1);
    }
  }

  /**
   Exactly for which frames some chunking makes the subtraction go wrong: those with
   data, unless the data ends in the first or the last cell of the buffer.
   */
  lemma SomeChunkingTrips(path: seq<byte>, data: seq<byte>)
    ensures (exists offers :: Trips(path, data, offers))
            <==> data != [] && 2 <= Slot(11 + |path| + |data|, BUFFER) < BUFFER
  {
    var d := 11 + |path|;
    var p := d + |data|;
    forall offers | Trips(path, data, offers)
      ensures data != [] && 2 <= Slot(p, BUFFER) < BUFFER
    {
      TripsWithin(p + 4, offers, BUFFER, d, p);
    }
    if data != [] && 2 <= Slot(p, BUFFER) < BUFFER {
      OvershootsOneByOne(p, BUFFER, d);
      assert Trips(path, data, Singles(p - 1, p + 4));
    }
  }

  /** Octet by octet up to the last but one of the data, and then everything, is such a chunking. */
  lemma OvershootsOneByOne(p: nat, capacity: nat, d: nat)
    requires 0 < d < p && capacity > 0 && 2 <= Slot(p, capacity) < capacity
    ensures Overshoots(p + 4, Singles(p - 1, p + 4), capacity, d, p)
  {
    hide Slot, Received;
    var offers := Singles(p - 1, p + 4);
    OneByOne(p + 4, capacity, p - 1, p - 1);
    JustBefore(p, capacity);
    ReceivedNext(p + 4, offers, capacity, p - 1);
    assert OvershootsAt(p + 4, offers, capacity, d, p, p - 1);
  }

  lemma TripsWithin(total: nat, offers: nat -> nat, capacity: nat, d: nat, p: nat)
    requires capacity > 0 && d > 0 && Overshoots(total, offers, capacity, d, p)
    ensures d < p && 2 <= Slot(p, capacity) < capacity
  {
    var k: nat :| OvershootsAt(total, offers, capacity, d, p, k);
    var before := Received(total, offers, capacity, k);
    SlotAdvance(before, p - before, capacity);
  }

  lemma {:induction false} JustBefore(p: nat, capacity: nat)
    requires p > 1 && capacity > 0 && Slot(p, capacity) >= 2
    ensures Slot(p - 1, capacity) == Slot(p, capacity) - 1
  {
    if p > capacity {
      JustBefore(p - capacity, capacity);
    }
  }

  /** Exactly which requests some chunking makes the server die on, as line 408 stands. */
  lemma SomeChunkingKills(path: seq<byte>, data: seq<byte>)
    requires |path| <= 1013 && |data| < 0x1_0000_0000
    ensures (exists offers :: Answer(Frame(path, data), offers, BUFFER, AsWritten) == Died)
            <==> Utf8.Valid(path) && data != [] && 2 <= Slot(11 + |path| + |data|, BUFFER) < BUFFER
  {
    hide Answer, Frame, Slot, Straddles, Trips, Utf8.Valid;
    SomeChunkingTrips(path, data);
    forall offers
      ensures Answer(Frame(path, data), offers, BUFFER, AsWritten) == Died
              <==> Utf8.Valid(path) && Trips(path, data, offers)
    {
      ServedFrame(path, data, offers, AsWritten);
    }
  }

  /**
   A frame that straddles: one octet of path and 1009 of data leave three octets of the
   buffer for the checksum. However it is cut, the server never saves it.
   */
  lemma StraddlingFrame(path: seq<byte>, data: seq<byte>, offers: nat -> nat)
    requires path == [0x61] && |data| == 1009
    ensures Answer(Frame(path, data), offers, BUFFER, AsAsserted) == Closed(File(Rejected(DataChecksumCut)))
    ensures Answer(Frame(path, data), offers, BUFFER, AsWritten)
            in {Died, Closed(File(Rejected(DataChecksumCut)))}
  {
    hide Answer, Frame, Slot, Straddles, Trips;
    assert Utf8.Valid(path) by {
      assert path[Utf8.FirstLength(path)..] == [];
    }
    hide Utf8.Valid;
    StraddlesFormula(path, data);
    ServedFrame(path, data, offers, AsAsserted);
    ServedFrame(path, data, offers, AsWritten);
  }

  /** The same request, the same server: saved when it arrives at once, fatal when cut after one octet of data. */
  lemma AsWrittenDependsOnChunks(path: seq<byte>, data: seq<byte>)
    requires |path| == 1 && Utf8.Valid(path) && |data| == 4
    ensures Answer(Frame(path, data), (k: nat) => 20, BUFFER, AsWritten) == Closed(File(Saved(path)))
    ensures Answer(Frame(path, data), (k: nat) => if k == 0 then 13 else 20, BUFFER, AsWritten) == Died
  {
    hide Frame, Utf8.Valid;
    var whole := (k: nat) => 20;
    var cut := (k: nat) => if k == 0 then 13 else 20;
    ServedFrame(path, data, whole, AsWritten);
    ServedFrame(path, data, cut, AsWritten);
    assert Slot(16, BUFFER) == 16 && Slot(13, BUFFER) == 13;
    assert Received(20, cut, BUFFER, 1) == 13;
    assert OvershootsAt(20, cut, BUFFER, 12, 16, 1);
    assert Received(20, whole, BUFFER, 1) == 20;
    forall k: nat
      ensures !OvershootsAt(20, whole, BUFFER, 12, 16, k)
    {
      if k > 0 {
        ReceivedMonotone(20, whole, BUFFER, 1, k);
      }
    }
  }
}
