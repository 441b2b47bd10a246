/**
 The file-transfer request and the verdict the server owes it.

 A request is one frame, sent over a connection of its own:

   | operation | path length | path | checksum | data length | data | checksum |
   | 1 octet   | 2 octets    |      | 4 octets | 4 octets    |      | 4 octets |

 `JudgePath` and `JudgeSave` say, as functions of the whole incoming stream and of
 the capacity of the receive buffer, what the server decides. They mention neither
 the sizes of the reads nor the indices the server keeps, so a method that meets
 them treats every chunking of the stream alike.
 */
module TransferFrame {
  import opened Bytes
  import opened Chunks
  import opened Crc32
  import Utf8

  const CREATE_PARENT_FOLDER: byte := 1
  const SAVE_FILE: byte := 2

  // ---------------------------------------------------------------- the format

  /** A field, after its length in k octets and before its checksum. */
  function Part(field: seq<byte>, k: nat): seq<byte> {
    ToBigEndian(|field|, k) + field + ToBigEndian(Checksum(field), 4)
  }

  function Frame(path: seq<byte>, data: seq<byte>): (f: seq<byte>)
    ensures |f| == 15 + |path| + |data|
  {
    [SAVE_FILE] + Part(path, 2) + Part(data, 4)
  }

  // ---------------------------------------------------------------- the verdict

  datatype Failure =
    | PathLengthCut
    | PathCut
    | PathNotUtf8
    | PathChecksumCut
    | PathMismatch
    | DataLengthCut
    | DataCut
    | DataChecksumCut
    | DataMismatch

  datatype PathVerdict = PathAccepted(path: seq<byte>) | PathRejected(why: Failure)

  datatype Verdict = Saved(path: seq<byte>) | Rejected(why: Failure)

  /** The first p octets both arrive and fit in a buffer that is not reused. */
  predicate Reaches(stream: seq<byte>, capacity: nat, p: nat) {
    p <= |stream| && p <= capacity
  }

  function PathLength(stream: seq<byte>): nat
    requires |stream| >= 3
  {
    FromBigEndian(stream[1..3])
  }

  function DataLength(stream: seq<byte>, p: nat): nat
    requires |stream| >= p + 4
  {
    FromBigEndian(stream[p..p + 4])
  }

  function JudgePath(stream: seq<byte>, capacity: nat): (v: PathVerdict)
    ensures v.PathAccepted? ==> Reaches(stream, capacity, 7 + |v.path|) && PathLength(stream) == |v.path|
  {
    if !Reaches(stream, capacity, 3) then PathRejected(PathLengthCut)
    else
      var p := 3 + PathLength(stream);
      if !Reaches(stream, capacity, p) then PathRejected(PathCut)
      else if !Utf8.Valid(stream[3..p]) then PathRejected(PathNotUtf8)
      else if !Reaches(stream, capacity, p + 4) then PathRejected(PathChecksumCut)
      else if FromBigEndian(stream[p..p + 4]) != Checksum(stream[3..p]) then PathRejected(PathMismatch)
      else PathAccepted(stream[3..p])
  }

  function JudgeSave(stream: seq<byte>, capacity: nat): Verdict
    requires capacity > 0
  {
    match JudgePath(stream, capacity)
    case PathRejected(why) => Rejected(why)
    case PathAccepted(path) =>
      var d := 11 + |path|;
      if !Reaches(stream, capacity, d) then Rejected(DataLengthCut)
      else JudgeData(stream, capacity, path, d, d + DataLength(stream, d - 4))
  }

  /** The verdict on a file whose data starts at d and ends at p. */
  function JudgeData(stream: seq<byte>, capacity: nat, path: seq<byte>, d: nat, p: nat): Verdict
    requires capacity > 0 && 0 < d <= p
  {
    if |stream| < p then Rejected(DataCut)
    else if Slot(p, capacity) + 4 > capacity || |stream| < p + 4 then Rejected(DataChecksumCut)
    else if FromBigEndian(stream[p..p + 4]) != Checksum(stream[d..p]) then Rejected(DataMismatch)
    else Saved(path)
  }

  /** What the file holds once the request is over, when one was created. */
  function Content(stream: seq<byte>, capacity: nat): seq<byte>
    requires JudgePath(stream, capacity).PathAccepted?
  {
    var d := 11 + |JudgePath(stream, capacity).path|;
    if !Reaches(stream, capacity, d) then []
    else
      var p := d + DataLength(stream, d - 4);
      stream[d..if p <= |stream| then p else |stream|]
  }

  /** The files after a request of either kind. */
  function FilesAfter(files: map<seq<byte>, seq<byte>>, stream: seq<byte>, capacity: nat): map<seq<byte>, seq<byte>> {
    match JudgePath(stream, capacity)
    case PathRejected(_) => files
    case PathAccepted(path) => files[path := Content(stream, capacity)]
  }

  /** The paths for which a request leaves a parent folder. */
  function PathsAccepted(stream: seq<byte>, capacity: nat): set<seq<byte>> {
    match JudgePath(stream, capacity)
    case PathRejected(_) => {}
    case PathAccepted(path) => {path}
  }

  /** How many octets a request can make the server wait for, by the lengths it declares. */
  function DeclaredLength(stream: seq<byte>): (n: nat)
    ensures n >= 3
  {
    if |stream| < 3 then 3
    else
      var d := 11 + PathLength(stream);
      if |stream| < d then d else d + DataLength(stream, d - 4) + 4
  }

  /** The same for a request that declares a path only. */
  function DeclaredPathLength(stream: seq<byte>): (n: nat)
    ensures 3 <= n <= DeclaredLength(stream)
  {
    if |stream| < 3 then 3 else 7 + PathLength(stream)
  }

  /** How many reads a request can cost, by its operation and the lengths it declares. */
  function MostReads(stream: seq<byte>): nat {
    if stream != [] && stream[0] == CREATE_PARENT_FOLDER then DeclaredPathLength(stream)
    else if stream != [] && stream[0] == SAVE_FILE then DeclaredLength(stream)
    else 1
  }

  /** The outcome of one connection. */
  datatype Served =
    | NoRequest
    | UnknownOperation
    | Folder(path: PathVerdict)
    | File(save: Verdict)

  function JudgeRequest(stream: seq<byte>, capacity: nat): Served
    requires capacity > 0
  {
    if stream == [] then NoRequest
    else if stream[0] == CREATE_PARENT_FOLDER then Folder(JudgePath(stream, capacity))
    else if stream[0] == SAVE_FILE then File(JudgeSave(stream, capacity))
    else UnknownOperation
  }

  /**
   As written, line 408 of server.rs takes the new start index, not the length of the
   last chunk, away from the remaining length, and line 410 then asserts the result to
   be zero. That fails exactly when a read overshoots the end of the data, which is at p,
   and did not go to the start of the buffer. The data begins at d.
   */
  predicate OvershootsAt(total: nat, offers: nat -> nat, capacity: nat, d: nat, p: nat, k: nat)
    requires capacity > 0 && d > 0
  {
    var before := Received(total, offers, capacity, k);
    d <= before < p < Received(total, offers, capacity, k + 1) && Slot(before, capacity) != capacity
  }

  ghost predicate Overshoots(total: nat, offers: nat -> nat, capacity: nat, d: nat, p: nat)
    requires capacity > 0 && d > 0
  {
    exists k: nat :: OvershootsAt(total, offers, capacity, d, p, k)
  }

  /** The read sizes make a request to save a file hit the assertion at line 410. */
  ghost predicate Stumbles(stream: seq<byte>, offers: nat -> nat, capacity: nat)
    requires capacity > 0
  {
    && JudgePath(stream, capacity).PathAccepted?
    && var d := 11 + |JudgePath(stream, capacity).path|;
    && Reaches(stream, capacity, d)
    && Overshoots(|stream|, offers, capacity, d, d + DataLength(stream, d - 4))
  }

  // ---------------------------------------------------------------- frames and verdicts

  /** Where the fields of a frame lie in a stream that starts with it. */
  lemma FieldsOfFrame(path: seq<byte>, data: seq<byte>, rest: seq<byte>)
    requires |path| < 0x1_0000 && |data| < 0x1_0000_0000
    ensures var s := Frame(path, data) + rest; var d := 11 + |path|; var p := d + |data|;
      && PathLength(s) == |path|
      && s[3..d - 8] == path
      && FromBigEndian(s[d - 8..d - 4]) == Checksum(path)
      && DataLength(s, d - 4) == |data|
      && s[d..p] == data
      && FromBigEndian(s[p..p + 4]) == Checksum(data)
  {
    hide Checksum, FromBigEndian, ToBigEndian, Span;
    Widths();
    var s := Frame(path, data) + rest;
    var d := 11 + |path|;
    var p := d + |data|;
    DecodeEncode(|path|, 2);
    DecodeEncode(Checksum(path), 4);
    DecodeEncode(|data|, 4);
    DecodeEncode(Checksum(data), 4);
    assert s == [SAVE_FILE] + ToBigEndian(|path|, 2) + path + ToBigEndian(Checksum(path), 4)
                + ToBigEndian(|data|, 4) + data + ToBigEndian(Checksum(data), 4) + rest;
    assert s[1..3] == ToBigEndian(|path|, 2);
    assert s[d - 8..d - 4] == ToBigEndian(Checksum(path), 4);
    assert s[d - 4..d] == ToBigEndian(|data|, 4);
    assert s[p..p + 4] == ToBigEndian(Checksum(data), 4);
  }

  /** The fate of a well-formed frame, whatever follows it on the stream. */
  lemma FrameVerdict(path: seq<byte>, data: seq<byte>, rest: seq<byte>, capacity: nat)
    requires |path| < 0x1_0000 && |data| < 0x1_0000_0000 && capacity > 0
    ensures JudgeSave(Frame(path, data) + rest, capacity) ==
            if capacity < 3 then Rejected(PathLengthCut)
            else if capacity < 3 + |path| then Rejected(PathCut)
            else if !Utf8.Valid(path) then Rejected(PathNotUtf8)
            else if capacity < 7 + |path| then Rejected(PathChecksumCut)
            else if capacity < 11 + |path| then Rejected(DataLengthCut)
            else if capacity < Slot(11 + |path| + |data|, capacity) + 4 then Rejected(DataChecksumCut)
            else Saved(path)
    ensures Utf8.Valid(path) && 11 + |path| <= capacity ==>
              && JudgePath(Frame(path, data) + rest, capacity) == PathAccepted(path)
              && Content(Frame(path, data) + rest, capacity) == data
  {
    hide Checksum, Frame, FromBigEndian, Slot, Utf8.Valid;
    FieldsOfFrame(path, data, rest);
  }

  lemma IsPart(s: seq<byte>, lo: nat, k: nat, field: seq<byte>)
    requires lo + k + |field| + 4 <= |s|
    requires FromBigEndian(s[lo..lo + k]) == |field|
    requires s[lo + k..lo + k + |field|] == field
    requires FromBigEndian(s[lo + k + |field|..lo + k + |field| + 4]) == Checksum(field)
    ensures |field| < Span(k)
    ensures s[lo..lo + k + |field| + 4] == Part(field, k)
  {
    hide Checksum, FromBigEndian, ToBigEndian, Span;
    var p := lo + k + |field|;
    EncodeDecode(s[lo..lo + k]);
    EncodeDecode(s[p..p + 4]);
    assert s[lo..p + 4] == s[lo..lo + k] + field + s[p..p + 4];
  }

  /** An accepted path arrived as a well-formed part. */
  lemma AcceptedIsPart(stream: seq<byte>, capacity: nat, path: seq<byte>)
    requires JudgePath(stream, capacity) == PathAccepted(path) && |stream| >= 7 + |path|
    ensures |path| < 0x1_0000 && Utf8.Valid(path)
    ensures stream[1..7 + |path|] == Part(path, 2)
  {
    hide Checksum, FromBigEndian, Part, Span, Utf8.Valid;
    Widths();
    IsPart(stream, 1, 2, path);
  }

  /** Exact acceptance of a path, which is all that creating a parent folder needs. */
  lemma PathAcceptedIff(stream: seq<byte>, capacity: nat, path: seq<byte>)
    requires |path| < 0x1_0000
    ensures JudgePath(stream, capacity) == PathAccepted(path) <==>
            && Reaches(stream, capacity, 7 + |path|)
            && stream[1..7 + |path|] == Part(path, 2) && Utf8.Valid(path)
  {
    hide Checksum, FromBigEndian, Part, Utf8.Valid;
    if JudgePath(stream, capacity) == PathAccepted(path) {
      AcceptedIsPart(stream, capacity, path);
    }
    if Reaches(stream, capacity, 7 + |path|) && stream[1..7 + |path|] == Part(path, 2) {
      PartFields(stream, path);
    }
  }

  lemma PartFields(stream: seq<byte>, path: seq<byte>)
    requires |path| < 0x1_0000 && 7 + |path| <= |stream| && stream[1..7 + |path|] == Part(path, 2)
    ensures PathLength(stream) == |path| && stream[3..3 + |path|] == path
    ensures FromBigEndian(stream[3 + |path|..7 + |path|]) == Checksum(path)
  {
    hide Checksum, FromBigEndian, Part, Span;
    Widths();
    FieldsOfPart(stream, 1, 2, path);
  }

  /** The converse of `IsPart`. */
  lemma FieldsOfPart(s: seq<byte>, lo: nat, k: nat, field: seq<byte>)
    requires |field| < Span(k) && lo + k + |field| + 4 <= |s|
    requires s[lo..lo + k + |field| + 4] == Part(field, k)
    ensures FromBigEndian(s[lo..lo + k]) == |field|
    ensures s[lo + k..lo + k + |field|] == field
    ensures FromBigEndian(s[lo + k + |field|..lo + k + |field| + 4]) == Checksum(field)
  {
    hide Checksum, FromBigEndian, ToBigEndian, Span;
    Widths();
    DecodeEncode(|field|, k);
    DecodeEncode(Checksum(field), 4);
    var n := k + |field| + 4;
    var part := s[lo..lo + n];
    var length, sum := ToBigEndian(|field|, k), ToBigEndian(Checksum(field), 4);
    assert part == length + field + sum;
    SliceOfSlice(s, lo, lo + n, 0, k);
    assert part[..k] == part[0..k] == length;
    SliceOfSlice(s, lo, lo + n, k, k + |field|);
    assert part[k..k + |field|] == field;
    SliceOfSlice(s, lo, lo + n, k + |field|, n);
    assert part[k + |field|..n] == sum;
  }

  lemma SavedIsPart(stream: seq<byte>, capacity: nat, path: seq<byte>, data: seq<byte>)
    requires capacity > 0 && JudgeSave(stream, capacity) == Saved(path)
    requires JudgePath(stream, capacity) == PathAccepted(path) && data == Content(stream, capacity)
    ensures |data| < 0x1_0000_0000 && |stream| >= 15 + |path| + |data|
    ensures stream[7 + |path|..15 + |path| + |data|] == Part(data, 4)
    ensures 11 + |path| <= capacity && Slot(11 + |path| + |data|, capacity) + 4 <= capacity
  {
    hide Checksum, Content, FromBigEndian, JudgePath, JudgeSave, Part, Slot, Span;
    SavedFields(stream, capacity, path, data);
    IsPart(stream, 7 + |path|, 4, data);
    Widths();
  }

  /** What the server has compared by the time it saves. */
  lemma SavedFields(stream: seq<byte>, capacity: nat, path: seq<byte>, data: seq<byte>)
    requires capacity > 0 && JudgeSave(stream, capacity) == Saved(path)
    requires JudgePath(stream, capacity) == PathAccepted(path) && data == Content(stream, capacity)
    ensures |stream| >= 15 + |path| + |data| && DataLength(stream, 7 + |path|) == |data|
    ensures stream[11 + |path|..11 + |path| + |data|] == data
    ensures FromBigEndian(stream[11 + |path| + |data|..15 + |path| + |data|]) == Checksum(data)
    ensures 11 + |path| <= capacity && Slot(11 + |path| + |data|, capacity) + 4 <= capacity
  {
    hide Checksum, FromBigEndian, JudgePath, Slot;
  }

  lemma SavedPathAccepted(stream: seq<byte>, capacity: nat)
    requires capacity > 0 && JudgeSave(stream, capacity).Saved?
    ensures JudgePath(stream, capacity) == PathAccepted(JudgeSave(stream, capacity).path)
  {
    hide Checksum, JudgePath, Slot;
  }

  /** The stream starts with a well-formed frame that the buffer can handle. */
  ghost predicate Carries(stream: seq<byte>, capacity: nat, path: seq<byte>, data: seq<byte>)
    requires capacity > 0
  {
    && Frame(path, data) <= stream
    && |path| < 0x1_0000 && |data| < 0x1_0000_0000
    && Utf8.Valid(path) && 11 + |path| <= capacity
    && Slot(11 + |path| + |data|, capacity) + 4 <= capacity
  }

  /** An accepted stream starts with a well-formed frame, and the file holds its data. */
  lemma SavedIsFrame(stream: seq<byte>, capacity: nat, path: seq<byte>)
    requires stream != [] && stream[0] == SAVE_FILE && capacity > 0
    requires JudgeSave(stream, capacity) == Saved(path)
    ensures JudgePath(stream, capacity) == PathAccepted(path)
    ensures Carries(stream, capacity, path, Content(stream, capacity))
    ensures DeclaredLength(stream) == |Frame(path, Content(stream, capacity))|
  {
    hide Checksum, JudgeSave, JudgePath, Content, Part, Slot;
    SavedPathAccepted(stream, capacity);
    var data := Content(stream, capacity);
    AcceptedIsPart(stream, capacity, path);
    SavedIsPart(stream, capacity, path, data);
    var d, p := 11 + |path|, 11 + |path| + |data|;
    assert stream[..p + 4] == [stream[0]] + stream[1..d - 4] + stream[d - 4..p + 4];
    assert Frame(path, data) == stream[..p + 4];
    SavedLength(stream, capacity, path);
  }

  lemma SavedLength(stream: seq<byte>, capacity: nat, path: seq<byte>)
    requires capacity > 0 && JudgeSave(stream, capacity) == Saved(path)
    requires JudgePath(stream, capacity) == PathAccepted(path)
    ensures DeclaredLength(stream) == 15 + |path| + |Content(stream, capacity)|
  {
    hide Checksum, FromBigEndian, JudgePath, Slot;
  }

  lemma CarriedIsSaved(stream: seq<byte>, capacity: nat, path: seq<byte>, data: seq<byte>)
    requires capacity > 0 && Carries(stream, capacity, path, data)
    ensures JudgeSave(stream, capacity) == Saved(path)
    ensures JudgePath(stream, capacity) == PathAccepted(path) && Content(stream, capacity) == data
  {
    hide Checksum, JudgeSave, JudgePath, Content, Part, Slot;
    var rest := stream[|Frame(path, data)|..];
    assert stream == Frame(path, data) + rest;
    FrameVerdict(path, data, rest, capacity);
  }

  /** Exact acceptance: a stream is saved if and only if it starts with a frame that fits the buffer. */
  lemma SavedIff(stream: seq<byte>, capacity: nat, path: seq<byte>)
    requires stream != [] && stream[0] == SAVE_FILE && capacity > 0
    ensures JudgeSave(stream, capacity) == Saved(path) <==> exists data :: Carries(stream, capacity, path, data)
  {
    hide JudgeSave, JudgePath, Content, Carries;
    if JudgeSave(stream, capacity) == Saved(path) {
      SavedIsFrame(stream, capacity, path);
    }
    forall data | Carries(stream, capacity, path, data)
      ensures JudgeSave(stream, capacity) == Saved(path)
    {
      CarriedIsSaved(stream, capacity, path, data);
    }
  }

  // ---------------------------------------------------------------- damaged frames

  /** stream with the window at position i replaced by w. */
  function Damaged(stream: seq<byte>, i: nat, w: seq<byte>): (t: seq<byte>)
    requires i + |w| <= |stream|
    ensures |t| == |stream|
    ensures forall k | 0 <= k < |stream| && !(i <= k < i + |w|) :: t[k] == stream[k]
  {
    stream[..i] + w + stream[i + |w|..]
  }

  /** A field that contains the damaged window no longer has the checksum it had. */
  lemma DamagedField(stream: seq<byte>, i: nat, w: seq<byte>, lo: nat, hi: nat)
    requires lo <= i && i + |w| <= hi <= |stream| && |w| <= 4 && w != stream[i..i + |w|]
    ensures Checksum(Damaged(stream, i, w)[lo..hi]) != Checksum(stream[lo..hi])
  {
    hide Checksum;
    var before, v, after := stream[lo..i], stream[i..i + |w|], stream[i + |w|..hi];
    assert stream[lo..hi] == before + v + after;
    assert Damaged(stream, i, w)[lo..hi] == before + w + after;
    BurstChangesChecksum(before, v, w, after);
  }

  /** The path part of a request, then its data part, whatever the operation and whatever follows. */
  ghost predicate HasParts(stream: seq<byte>, path: seq<byte>, data: seq<byte>) {
    && |path| < 0x1_0000 && |data| < 0x1_0000_0000 && 15 + |path| + |data| <= |stream|
    && stream[1..7 + |path|] == Part(path, 2)
    && stream[7 + |path|..15 + |path| + |data|] == Part(data, 4)
  }

  /**
   Up to four altered octets in the data are always noticed: what would have been saved is
   a mismatch, and what would have been rejected is rejected as before.
   */
  lemma DataBurstDetected(stream: seq<byte>, capacity: nat, path: seq<byte>, data: seq<byte>, i: nat, w: seq<byte>)
    requires capacity > 0 && HasParts(stream, path, data)
    requires 11 + |path| <= i && i + |w| <= 11 + |path| + |data|
    requires |w| <= 4 && w != stream[i..i + |w|]
    ensures JudgeSave(Damaged(stream, i, w), capacity) ==
            if JudgeSave(stream, capacity).Saved? then Rejected(DataMismatch) else JudgeSave(stream, capacity)
  {
    hide Checksum, FromBigEndian, Part, Slot, Span, Utf8.Valid;
    var t := Damaged(stream, i, w);
    var d := 11 + |path|;
    var p := d + |data|;
    Widths();
    FieldsOfPart(stream, 1, 2, path);
    FieldsOfPart(stream, d - 4, 4, data);
    DamagedField(stream, i, w, d, p);
    hide Damaged;
    assert t[1..3] == stream[1..3];
    assert t[3..d - 8] == stream[3..d - 8];
    assert t[d - 8..d - 4] == stream[d - 8..d - 4];
    assert t[d - 4..d] == stream[d - 4..d];
    assert t[p..p + 4] == stream[p..p + 4];
    assert JudgePath(t, capacity) == JudgePath(stream, capacity);
  }

  /**
   Up to four altered octets in a path that was sent with its checksum are always noticed,
   before anything is stored, also when they turn it into UTF-8.
   */
  lemma PathBurstDetected(stream: seq<byte>, capacity: nat, path: seq<byte>, i: nat, w: seq<byte>)
    requires |path| < 0x1_0000 && 7 + |path| <= |stream| && stream[1..7 + |path|] == Part(path, 2)
    requires 3 <= i && i + |w| <= 3 + |path| && |w| <= 4 && w != stream[i..i + |w|]
    ensures JudgePath(Damaged(stream, i, w), capacity) == PathRejected(
              if capacity < 3 then PathLengthCut
              else if capacity < 3 + |path| then PathCut
              else if !Utf8.Valid(Damaged(stream, i, w)[3..3 + |path|]) then PathNotUtf8
              else if capacity < 7 + |path| then PathChecksumCut
              else PathMismatch)
  {
    hide Checksum, FromBigEndian, Part, Utf8.Valid;
    var t := Damaged(stream, i, w);
    var p := 3 + |path|;
    PartFields(stream, path);
    assert t[1..3] == stream[1..3];
    assert t[p..p + 4] == stream[p..p + 4];
    DamagedField(stream, i, w, 3, p);
  }

  /** Whatever frame was sent, in whatever state it would have been received, no burst in its path or data is saved. */
  lemma BurstRejected(path: seq<byte>, data: seq<byte>, rest: seq<byte>, capacity: nat, i: nat, w: seq<byte>)
    requires |path| < 0x1_0000 && |data| < 0x1_0000_0000 && capacity > 0
    requires BurstIn(path, data, i, w) && w != Frame(path, data)[i..i + |w|]
    ensures JudgeSave(Damaged(Frame(path, data) + rest, i, w), capacity).Rejected?
    ensures i + |w| <= 3 + |path| ==> JudgePath(Damaged(Frame(path, data) + rest, i, w), capacity).PathRejected?
  {
    hide Checksum, FromBigEndian, Frame, JudgePath, JudgeSave, Part, Slot, Utf8.Valid;
    var stream := Frame(path, data) + rest;
    assert stream[i..i + |w|] == Frame(path, data)[i..i + |w|];
    FrameHasParts(path, data, rest);
    if i + |w| <= 3 + |path| {
      PathBurstDetected(stream, capacity, path, i, w);
      RejectedPath(Damaged(stream, i, w), capacity);
    } else {
      DataBurstDetected(stream, capacity, path, data, i, w);
    }
  }

  /** A window of at most four octets in the path or in the data. */
  predicate BurstIn(path: seq<byte>, data: seq<byte>, i: nat, w: seq<byte>) {
    && |w| <= 4
    && ((3 <= i && i + |w| <= 3 + |path|) || (11 + |path| <= i && i + |w| <= 11 + |path| + |data|))
  }

  lemma FrameHasParts(path: seq<byte>, data: seq<byte>, rest: seq<byte>)
    requires |path| < 0x1_0000 && |data| < 0x1_0000_0000
    ensures HasParts(Frame(path, data) + rest, path, data)
  {
    hide Checksum, ToBigEndian;
    var s := Frame(path, data) + rest;
    assert s[1..7 + |path|] == Part(path, 2);
    assert s[7 + |path|..15 + |path| + |data|] == Part(data, 4);
  }

  lemma RejectedPath(stream: seq<byte>, capacity: nat)
    requires capacity > 0 && JudgePath(stream, capacity).PathRejected?
    ensures JudgeSave(stream, capacity).Rejected?
  {}
}
