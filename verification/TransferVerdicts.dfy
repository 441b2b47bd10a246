/**
 The layout of a request in octets, and the fate of every stream there is: one that ends
 early, one that is damaged, and one that is whole.
 */
module TransferVerdicts {
  import opened Bytes
  import opened Chunks
  import opened Crc32
  import opened TransferFrame
  import Utf8

  /** A number in two octets, and one in four. */
  function Short(v: nat): seq<byte>
    requires v < 0x1_0000
  {
    [v / 0x100, v % 0x100]
  }

  function Word(v: nat): (w: seq<byte>)
    requires v < 0x1_0000_0000
    ensures |w| == 4
  {
    [v / 0x100_0000, v / 0x1_0000 % 0x100, v / 0x100 % 0x100, v % 0x100]
  }

  lemma ShortIsBigEndian(v: nat)
    requires v < 0x1_0000
    ensures ToBigEndian(v, 2) == Short(v)
  {
    assert ToBigEndian(v / 0x100, 1) == ToBigEndian(v / 0x100 / 0x100, 0) + [v / 0x100 % 0x100];
  }

  lemma WordIsBigEndian(v: nat)
    requires v < 0x1_0000_0000
    ensures ToBigEndian(v, 4) == Word(v)
  {
    assert v / 0x100 / 0x100 == v / 0x1_0000 && v / 0x1_0000 / 0x100 == v / 0x100_0000;
    assert ToBigEndian(v, 4) == ToBigEndian(v / 0x100, 3) + [v % 0x100];
    assert ToBigEndian(v / 0x100, 3) == ToBigEndian(v / 0x1_0000, 2) + [v / 0x100 % 0x100];
    assert ToBigEndian(v / 0x1_0000, 2) == ToBigEndian(v / 0x100_0000, 1) + [v / 0x1_0000 % 0x100];
    assert ToBigEndian(v / 0x100_0000, 1) == [] + [v / 0x100_0000 % 0x100];
  }

  /** What four octets say, when compared with a number. */
  lemma ReadsWord(w: seq<byte>, v: nat)
    requires |w| == 4 && v < 0x1_0000_0000
    ensures FromBigEndian(w) == v <==> w == Word(v)
  {
    Widths();
    WordIsBigEndian(v);
    DecodeEncode(v, 4);
    EncodeDecode(w);
    hide ToBigEndian, FromBigEndian, Word, Span;
  }

  lemma ReadsShort(v: nat)
    requires v < 0x1_0000
    ensures FromBigEndian(Short(v)) == v
  {
    Widths();
    ShortIsBigEndian(v);
    DecodeEncode(v, 2);
  }

  /** Octet by octet, what a request to save a file looks like on the wire. */
  lemma FrameLayout(path: seq<byte>, data: seq<byte>)
    requires |path| < 0x1_0000 && |data| < 0x1_0000_0000
    ensures Frame(path, data) == Header(2, path, |data|) + data + Word(Checksum(data))
  {
    hide Checksum, ToBigEndian, Word, Short;
    ShortIsBigEndian(|path|);
    WordIsBigEndian(Checksum(path));
    WordIsBigEndian(|data|);
    WordIsBigEndian(Checksum(data));
    var length, sum, size, end := Short(|path|), Word(Checksum(path)), Word(|data|), Word(Checksum(data));
    assert Frame(path, data) == [2] + (length + path + sum) + (size + data + end);
    assert [2, |path| / 0x100, |path| % 0x100] == [2] + length by {
      ShortOctets(|path|);
    }
    assert Header(2, path, |data|) == [2] + length + path + sum + size;
  }

  lemma ShortOctets(v: nat)
    requires v < 0x1_0000
    ensures [2] + Short(v) == [2, v / 0x100, v % 0x100]
  {}

  /** A request up to and with the length of its data. */
  function Header(operation: byte, path: seq<byte>, length: nat): (h: seq<byte>)
    requires |path| < 0x1_0000 && length < 0x1_0000_0000
    ensures |h| == 11 + |path|
  {
    PathPart(operation, path) + Word(length)
  }

  function PathPart(operation: byte, path: seq<byte>): (h: seq<byte>)
    requires |path| < 0x1_0000
    ensures |h| == 7 + |path|
  {
    [operation, |path| / 0x100, |path| % 0x100] + path + Word(Checksum(path))
  }

  // ---------------------------------------------------------------- paths

  /** The verdict on a path for every stream that has a path length: its octets may be cut or wrong anywhere. */
  lemma PathVerdicts(operation: byte, n: nat, tail: seq<byte>, capacity: nat)
    requires n < 0x1_0000
    ensures var s := [operation, n / 0x100, n % 0x100] + tail;
      && JudgePath(s, capacity) == (
        if capacity < 3 then PathRejected(PathLengthCut)
        else if |tail| < n || capacity < 3 + n then PathRejected(PathCut)
        else if !Utf8.Valid(tail[..n]) then PathRejected(PathNotUtf8)
        else if |tail| < n + 4 || capacity < 7 + n then PathRejected(PathChecksumCut)
        else if tail[n..n + 4] != Word(Checksum(tail[..n])) then PathRejected(PathMismatch)
        else PathAccepted(tail[..n]))
      && DeclaredPathLength(s) == 7 + n
      && (|tail| < n + 8 ==> DeclaredLength(s) == 11 + n)
  {
    hide Checksum, FromBigEndian, Utf8.Valid, Word;
    var s := [operation, n / 0x100, n % 0x100] + tail;
    ReadsShort(n);
    assert s[1..3] == Short(n);
    if |tail| >= n {
      assert s[3..3 + n] == tail[..n];
    }
    if |tail| >= n + 4 {
      assert s[3 + n..7 + n] == tail[n..n + 4];
      ReadsWord(tail[n..n + 4], Checksum(tail[..n]));
    }
  }

  /** Streams too short for that. */
  lemma NoPathLength(s: seq<byte>, capacity: nat)
    requires |s| < 3
    ensures JudgePath(s, capacity) == PathRejected(PathLengthCut)
    ensures DeclaredPathLength(s) == DeclaredLength(s) == 3
  {}

  /** What a verdict on the path means for files and folders. */
  lemma PathEffects(files: map<seq<byte>, seq<byte>>, s: seq<byte>, capacity: nat)
    requires capacity > 0
    ensures var v := JudgePath(s, capacity);
      if v.PathAccepted? then PathsAccepted(s, capacity) == {v.path}
      else PathsAccepted(s, capacity) == {} && FilesAfter(files, s, capacity) == files
           && JudgeSave(s, capacity) == Rejected(v.why)
  {}

  lemma PathPartAccepted(operation: byte, path: seq<byte>, tail: seq<byte>, capacity: nat)
    requires |path| < 0x1_0000 && Utf8.Valid(path) && 7 + |path| <= capacity
    ensures JudgePath(PathPart(operation, path) + tail, capacity) == PathAccepted(path)
  {
    hide Checksum, JudgePath, Utf8.Valid, Word;
    var n, sum := |path|, Word(Checksum(path));
    var length := [operation, n / 0x100, n % 0x100];
    var rest := path + sum + tail;
    assert PathPart(operation, path) + tail == length + rest;
    hide PathPart;
    ThreeParts(path, sum, tail);
    PathVerdicts(operation, n, rest, capacity);
  }

  lemma ThreeParts(a: seq<byte>, b: seq<byte>, c: seq<byte>)
    ensures (a + b + c)[..|a|] == a && (a + b + c)[|a|..|a| + |b|] == b
  {}

  // ---------------------------------------------------------------- data

  /**
   The verdict and the file for every stream with an acceptable header: as many octets of
   data as came are in the file, whether the stream then ends, or goes on with the checksum
   they should have, or with anything else.
   */
  lemma DataVerdicts(operation: byte, path: seq<byte>, n: nat, tail: seq<byte>, capacity: nat,
                     files: map<seq<byte>, seq<byte>>)
    requires |path| < 0x1_0000 && n < 0x1_0000_0000 && Utf8.Valid(path) && 11 + |path| <= capacity
    ensures var s := Header(operation, path, n) + tail;
      && JudgeSave(s, capacity) == (
        if |tail| < n then Rejected(DataCut)
        else if (10 + |path| + n) % capacity + 5 > capacity || |tail| < n + 4 then Rejected(DataChecksumCut)
        else if tail[n..n + 4] != Word(Checksum(tail[..n])) then Rejected(DataMismatch)
        else Saved(path))
      && FilesAfter(files, s, capacity) == files[path := if |tail| < n then tail else tail[..n]]
      && DeclaredLength(s) == 15 + |path| + n
  {
    hide Checksum, Content, Header, JudgePath, JudgeSave, Utf8.Valid, Word;
    HeaderFields(operation, path, n, tail, capacity, files);
    TailVerdict(Header(operation, path, n) + tail, capacity, path, n, tail);
  }

  /** The header leads to judging the data, which start right after it. */
  lemma HeaderFields(operation: byte, path: seq<byte>, n: nat, tail: seq<byte>, capacity: nat,
                     files: map<seq<byte>, seq<byte>>)
    requires |path| < 0x1_0000 && n < 0x1_0000_0000 && Utf8.Valid(path) && 11 + |path| <= capacity
    ensures var s, d := Header(operation, path, n) + tail, 11 + |path|;
      && JudgeSave(s, capacity) == JudgeData(s, capacity, path, d, d + n)
      && FilesAfter(files, s, capacity) == files[path := if |s| < d + n then s[d..] else s[d..d + n]]
      && DeclaredLength(s) == 15 + |path| + n
  {
    hide Checksum, FromBigEndian, JudgeData, JudgePath, Utf8.Valid, Word;
    var s := Header(operation, path, n) + tail;
    var rest := Word(n) + tail;
    assert s == PathPart(operation, path) + rest;
    PathPartAccepted(operation, path, rest, capacity);
    assert s[7 + |path|..11 + |path|] == Word(n);
    ReadsWord(Word(n), n);
    assert s[11 + |path|..] == s[11 + |path|..|s|];
    assert PathLength(s) == |path|;
    hide Header, PathPart;
  }

  lemma TailVerdict(s: seq<byte>, capacity: nat, path: seq<byte>, n: nat, tail: seq<byte>)
    requires capacity > 0 && |s| == 11 + |path| + |tail| && s[11 + |path|..] == tail
    ensures var d := 11 + |path|;
      && JudgeData(s, capacity, path, d, d + n) == (
        if |tail| < n then Rejected(DataCut)
        else if (10 + |path| + n) % capacity + 5 > capacity || |tail| < n + 4 then Rejected(DataChecksumCut)
        else if tail[n..n + 4] != Word(Checksum(tail[..n])) then Rejected(DataMismatch)
        else Saved(path))
      && (|tail| >= n ==> s[d..d + n] == tail[..n])
  {
    hide Checksum, FromBigEndian, Slot, Word;
    var d := 11 + |path|;
    SlotIsRemainder(d + n, capacity);
    if |tail| >= n {
      assert s[d..d + n] == tail[..n];
      if |tail| >= n + 4 {
        assert s[d + n..d + n + 4] == tail[n..n + 4];
        ReadsWord(tail[n..n + 4], Checksum(tail[..n]));
      }
    }
  }

  /** A header that ends within the length of the data leaves an empty file. */
  lemma NoDataLength(operation: byte, path: seq<byte>, tail: seq<byte>, capacity: nat, files: map<seq<byte>, seq<byte>>)
    requires |path| < 0x1_0000 && Utf8.Valid(path) && 7 + |path| <= capacity
    requires |tail| < 4 || capacity < 11 + |path|
    ensures var s := PathPart(operation, path) + tail;
      && JudgeSave(s, capacity) == Rejected(DataLengthCut)
      && FilesAfter(files, s, capacity) == files[path := []]
  {
    hide Checksum, JudgePath, Utf8.Valid, Word;
    PathPartAccepted(operation, path, tail, capacity);
  }

  // ---------------------------------------------------------------- cut requests

  /** The fate of every proper beginning of a frame: the exact rejection, and what is left on the disk. */
  lemma CutFrame(path: seq<byte>, data: seq<byte>, k: nat, capacity: nat, files: map<seq<byte>, seq<byte>>)
    requires |path| < 0x1_0000 && |data| < 0x1_0000_0000 && capacity > 0
    requires k < |Frame(path, data)|
    ensures var s := Frame(path, data)[..k];
      var header := if k < capacity then k else capacity;
      && JudgeSave(s, capacity) == Rejected(
        if header < 3 then PathLengthCut
        else if header < 3 + |path| then PathCut
        else if !Utf8.Valid(path) then PathNotUtf8
        else if header < 7 + |path| then PathChecksumCut
        else if header < 11 + |path| then DataLengthCut
        else if k < 11 + |path| + |data| then DataCut
        else DataChecksumCut)
      && FilesAfter(files, s, capacity) == (
        if header < 7 + |path| || !Utf8.Valid(path) then files
        else if header < 11 + |path| then files[path := []]
        else files[path := data[..if k < 11 + |path| + |data| then k - 11 - |path| else |data|]])
      && PathsAccepted(s, capacity) == if header < 7 + |path| || !Utf8.Valid(path) then {} else {path}
  {
    hide Checksum, Frame, JudgePath, JudgeSave, FilesAfter, Utf8.Valid, Word;
    FrameLayout(path, data);
    var f := Frame(path, data);
    var s := f[..k];
    PathEffects(files, s, capacity);
    if k < 3 {
      NoPathLength(s, capacity);
    } else if k < 7 + |path| || capacity < 7 + |path| || !Utf8.Valid(path) {
      CutPath(path, data, k, capacity);
    } else if k < 11 + |path| || capacity < 11 + |path| {
      assert s == PathPart(2, path) + s[7 + |path|..];
      NoDataLength(2, path, s[7 + |path|..], capacity, files);
      PathPartAccepted(2, path, s[7 + |path|..], capacity);
    } else {
      var tail := (data + Word(Checksum(data)))[..k - 11 - |path|];
      assert f == Header(2, path, |data|) + (data + Word(Checksum(data)));
      assert s == Header(2, path, |data|) + tail;
      assert s == PathPart(2, path) + s[7 + |path|..];
      hide Header, PathPart;
      DataVerdicts(2, path, |data|, tail, capacity, files);
      PathPartAccepted(2, path, s[7 + |path|..], capacity);
      var n := |data|;
      assert if |tail| < n then tail == data[..|tail|] else tail[..n] == data[..n] == data;
      SlotIsRemainder(11 + |path| + |data|, capacity);
    }
  }

  lemma CutPath(path: seq<byte>, data: seq<byte>, k: nat, capacity: nat)
    requires |path| < 0x1_0000 && |data| < 0x1_0000_0000
    requires 3 <= k < |Frame(path, data)|
    requires k < 7 + |path| || capacity < 7 + |path| || !Utf8.Valid(path)
    ensures var header := if k < capacity then k else capacity;
      JudgePath(Frame(path, data)[..k], capacity) == PathRejected(
        if header < 3 then PathLengthCut
        else if header < 3 + |path| then PathCut
        else if !Utf8.Valid(path) then PathNotUtf8
        else PathChecksumCut)
  {
    hide Checksum, Frame, JudgePath, Utf8.Valid, Word;
    FrameLayout(path, data);
    var n, s := |path|, Frame(path, data)[..k];
    var tail := s[3..];
    var length := [2, n / 0x100, n % 0x100];
    var rest := Word(Checksum(path)) + Word(|data|) + data + Word(Checksum(data));
    assert Frame(path, data) == length + (path + rest);
    hide Header, PathPart;
    assert s == length + tail && tail == (path + rest)[..k - 3];
    if k - 3 >= n {
      var all := path + rest;
      SliceOfSlice(all, 0, k - 3, 0, n);
      assert all[..k - 3][..n] == all[0..k - 3][0..n] == all[0..n] == path;
    }
    PathVerdicts(2, n, tail, capacity);
  }

  // ---------------------------------------------------------------- operations

  /** The first octet of a request says what it asks for. */
  lemma Operations(s: seq<byte>, capacity: nat)
    requires capacity > 0
    ensures JudgeRequest(s, capacity) == (
      if s == [] then NoRequest
      else if s[0] == 1 then Folder(JudgePath(s, capacity))
      else if s[0] == 2 then File(JudgeSave(s, capacity))
      else UnknownOperation)
    ensures MostReads(s) == (
      if s == [] || s[0] !in {1, 2} then 1
      else if s[0] == 1 then DeclaredPathLength(s)
      else DeclaredLength(s))
  {}
}
