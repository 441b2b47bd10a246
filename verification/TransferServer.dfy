/**
 The receiving side: one buffer, two indices into it, a remainder counter and a
 running checksum, fed by a socket that decides how much each read delivers.
 Octets before `start` are processed, octets from `start` to `end` are received only.
 */
module TransferServer {
  import opened Bytes
  import opened Chunks
  import opened Crc32
  import opened TransferFrame
  import Utf8

  /** The file system, as far as a request changes it. */
  class Disk {
    var files: map<seq<byte>, seq<byte>>
    var parents: set<seq<byte>>  // paths whose parent folder has been created

    constructor ()
      ensures files == map[] && parents == {}
    {
      files := map[];
      parents := {};
    }

    method CreateParent(path: seq<byte>)
      modifies this`parents
      ensures parents == old(parents) + {path}
    {
      parents := parents + {path};
    }

    method Create(path: seq<byte>)
      modifies this`files
      ensures files == old(files)[path := []]
    {
      files := files[path := []];
    }

    method Append(path: seq<byte>, data: seq<byte>)
      requires path in files
      modifies this`files
      ensures files == old(files)[path := old(files)[path] + data]
    {
      files := files[path := files[path] + data];
    }
  }

  /** Line 408 as it stands, or such that the assertion two lines below it holds. */
  datatype Rule = AsWritten | AsAsserted

  /**
   The buffer holds, up to `end`, the octets received last; a refill from the start may
   be under way. Indices and octet counts agree, and so does the history of the reads.
   */
  ghost predicate Synced(socket: Input, buf: array<byte>, end: nat)
    reads socket, buf
  {
    && socket.Valid() && buf.Length > 0
    && end <= buf.Length && end <= socket.taken
    && buf[..end] == socket.stream[socket.taken - end..socket.taken]
    && AtIndex(socket.taken, buf.Length, end)
    && socket.calls <= socket.taken
    && socket.taken == Received(|socket.stream|, socket.offers, buf.Length, socket.calls)
  }

  predicate AtIndex(taken: nat, capacity: nat, end: nat) {
    && capacity > 0
    && if taken == 0 then end == 0
       else end == Slot(taken, capacity) || (end == 0 && Slot(taken, capacity) == capacity)
  }

  /** Every read so far was asked for while the first p octets were still incomplete. */
  ghost predicate Prompt(socket: Input, capacity: nat, p: nat)
    requires capacity > 0
    reads socket
  {
    && socket.calls <= p
    && (socket.calls > 0 ==> Received(|socket.stream|, socket.offers, capacity, socket.calls - 1) < p)
  }

  /** What one read does to a buffer that is in step and not full. */
  lemma InStep(taken: nat, capacity: nat, end: nat, n: nat)
    requires AtIndex(taken, capacity, end) && end + n <= capacity && n > 0
    ensures Space(taken, capacity) == capacity - end
    ensures AtIndex(taken + n, capacity, end + n)
  {
    if taken > 0 {
      if end == 0 {
        SlotWrap(taken, n, capacity);
      } else {
        SlotAdvance(taken, n, capacity);
      }
    }
  }

  /** A full buffer may be refilled from the start. */
  lemma Refill(socket: Input, buf: array<byte>)
    requires Synced(socket, buf, buf.Length)
    ensures Synced(socket, buf, 0)
  {
    assert socket.stream[socket.taken..socket.taken] == [];
  }

  /** One read into the free part of the buffer. */
  method ReadMore(socket: Input, buf: array<byte>, end: nat) returns (n: nat)
    requires Synced(socket, buf, end)
    modifies socket, buf
    ensures end + n <= buf.Length
    ensures n == 0 <==> end == buf.Length || old(socket.taken) == |socket.stream|
    ensures socket.taken == old(socket.taken) + n <= |socket.stream| && socket.calls == old(socket.calls) + 1
    ensures n > 0 ==> Synced(socket, buf, end + n)
    ensures old(socket.calls) <= old(socket.taken)
    ensures old(socket.taken) == Received(|socket.stream|, socket.offers, buf.Length, old(socket.calls))
    ensures n > 0 ==> socket.taken == Received(|socket.stream|, socket.offers, buf.Length, socket.calls)
    ensures AtIndex(old(socket.taken), buf.Length, end)
    ensures n > 0 ==> AtIndex(socket.taken, buf.Length, end + n)
  {
    hide AtIndex, ReadSize, Received, Slot;
    n := socket.Read(buf, end);
    if n > 0 {
      ReceivedNext(|socket.stream|, socket.offers, buf.Length, old(socket.calls));
      InStep(old(socket.taken), buf.Length, end, n);
      assert buf[..end + n] == buf[..end] + buf[end..end + n];
    }
  }

  /** Lines 100-118, 132-153, 302-320 and 544-564: wait until `need` octets are unprocessed. */
  method Fill(socket: Input, buf: array<byte>, start: nat, end: nat, need: nat)
    returns (ok: bool, end': nat)
    requires start <= end && Synced(socket, buf, end)
    requires Prompt(socket, buf.Length, socket.taken - end + start)
    modifies socket, buf
    ensures var p := old(socket.taken) - end + start + need;
      && (ok <==> start + need <= buf.Length && p <= |socket.stream|)
      && (ok ==> && end <= end' && start + need <= end' <= buf.Length && Synced(socket, buf, end')
                 && socket.taken - end' == old(socket.taken) - end
                 && Prompt(socket, buf.Length, p))
      && socket.calls <= p
  {
    hide AtIndex, Received, Slot;
    end' := end;
    ghost var p := socket.taken - end + start + need;
    while end' - start < need
      invariant end <= end' && Synced(socket, buf, end')
      invariant socket.taken - end' == old(socket.taken) - end
      invariant Prompt(socket, buf.Length, p)
      decreases |socket.stream| - socket.taken
    {
      var n := ReadMore(socket, buf, end');
      if n == 0 {
        return false, end';
      }
      end' := end' + n;
    }
    ok := true;
  }

  /** The octets at indices start..start+n are the next n of the stream. */
  lemma Window(socket: Input, buf: array<byte>, start: nat, end: nat, n: nat)
    requires Synced(socket, buf, end) && start + n <= end
    ensures var p := socket.taken - end + start;
      p + n <= |socket.stream| && buf[start..start + n] == socket.stream[p..p + n]
  {
    var all := buf[..];
    assert buf[start..start + n] == all[start..start + n] && buf[..end] == all[0..end];
    SliceOfSlice(all, 0, end, start, start + n);
    SliceOfSlice(socket.stream, socket.taken - end, socket.taken, start, start + n);
  }

  /** read_checksum, lines 537-579. */
  method ReadChecksum(socket: Input, buf: array<byte>, start: nat, end: nat)
    returns (ok: bool, sum: nat, start': nat, end': nat)
    requires start <= end && Synced(socket, buf, end)
    requires Prompt(socket, buf.Length, socket.taken - end + start)
    modifies socket, buf
    ensures var p := old(socket.taken) - end + start;
      && (ok <==> start + 4 <= buf.Length && p + 4 <= |socket.stream|)
      && (ok ==> && sum == FromBigEndian(socket.stream[p..p + 4])
                 && start' == start + 4 <= end' <= buf.Length && Synced(socket, buf, end')
                 && socket.taken - end' == old(socket.taken) - end
                 && Prompt(socket, buf.Length, p + 4))
      && socket.calls <= p + 4
  {
    hide AtIndex, FromBigEndian, Prompt, Received, Slot;
    sum, start' := 0, start;
    ok, end' := Fill(socket, buf, start, end, 4);
    if ok {
      Window(socket, buf, start, end', 4);
      sum := FromBigEndian(buf[start..start + 4]);
      start' := start + 4;
    }
  }

  /**
   create_parent_folder, lines 80-252. Byte 0 holds the operation, so the fields start
   at index 1, and the buffer is not reused: indices are stream positions here.
   */
  method CreateParentFolder(socket: Input, buf: array<byte>, end: nat, start: nat, disk: Disk)
    returns (verdict: PathVerdict, start': nat, end': nat)
    requires start == 1 && socket.taken == end >= start && Synced(socket, buf, end)
    requires Prompt(socket, buf.Length, 1)
    modifies socket, buf, disk`parents
    ensures verdict == JudgePath(socket.stream, buf.Length)
    ensures verdict.PathAccepted? ==>
              && start' == 7 + |verdict.path| <= end' == socket.taken && Synced(socket, buf, end')
              && Prompt(socket, buf.Length, start')
    ensures disk.parents == old(disk.parents) + if verdict.PathAccepted? then {verdict.path} else {}
    ensures socket.calls <= DeclaredPathLength(socket.stream)
  {
    hide Checksum, FromBigEndian, Prompt, Synced, Utf8.Valid;
    var ok;
    start' := start;
    ok, end' := Fill(socket, buf, start', end, 2);
    if !ok {
      return PathRejected(PathLengthCut), start', end';
    }
    Window(socket, buf, start', end', 2);
    var length := FromBigEndian(buf[start'..start' + 2]);
    start' := start' + 2;

    ok, end' := Fill(socket, buf, start', end', length);
    if !ok {
      return PathRejected(PathCut), start', end';
    }
    Window(socket, buf, start', end', length);
    var path := buf[start'..start' + length];
    if !Utf8.Valid(path) {
      return PathRejected(PathNotUtf8), start', end';
    }
    start' := start' + length;

    var received;
    ok, received, start', end' := ReadChecksum(socket, buf, start', end');
    if !ok {
      return PathRejected(PathChecksumCut), start', end';
    }
    if Checksum(path) != received {
      return PathRejected(PathMismatch), start', end';
    }
    disk.CreateParent(path);
    verdict := PathAccepted(path);
  }

  // ---------------------------------------------------------------- file data

  /** None of the first `count` reads overshot. */
  ghost predicate NoneOvershot(total: nat, offers: nat -> nat, capacity: nat, d: nat, p: nat, count: nat)
    requires capacity > 0 && d > 0
  {
    forall k: nat | k < count :: !OvershootsAt(total, offers, capacity, d, p, k)
  }

  /** A read that starts before the data, starts after it, or ends within it, does not overshoot. */
  lemma FallsShort(total: nat, offers: nat -> nat, capacity: nat, d: nat, p: nat, k: nat)
    requires capacity > 0 && d > 0
    requires Received(total, offers, capacity, k) < d || p <= Received(total, offers, capacity, k)
             || Received(total, offers, capacity, k + 1) <= p
    ensures !OvershootsAt(total, offers, capacity, d, p, k)
  {}

  /** A read that goes past the end of the data overshoots unless it filled the buffer from the start. */
  lemma GoesPast(total: nat, offers: nat -> nat, capacity: nat, d: nat, p: nat, k: nat, from: nat)
    requires from < capacity
    requires 0 < d <= Received(total, offers, capacity, k) < p < Received(total, offers, capacity, k + 1)
    requires AtIndex(Received(total, offers, capacity, k), capacity, from)
    ensures OvershootsAt(total, offers, capacity, d, p, k) <==> from != 0
  {}

  lemma HeaderReadsFallShort(socket: Input, capacity: nat, d: nat, p: nat)
    requires capacity > 0 && d > 0 && Prompt(socket, capacity, d)
    ensures NoneOvershot(|socket.stream|, socket.offers, capacity, d, p, socket.calls)
  {
    hide OvershootsAt, Received, Slot;
    forall k: nat | k < socket.calls
      ensures !OvershootsAt(|socket.stream|, socket.offers, capacity, d, p, k)
    {
      ReceivedMonotone(|socket.stream|, socket.offers, capacity, k, socket.calls - 1);
      FallsShort(|socket.stream|, socket.offers, capacity, d, p, k);
    }
  }

  /** Once all data is there, or the stream is too short for it, no later read overshoots. */
  lemma NoneWillOvershoot(total: nat, offers: nat -> nat, capacity: nat, d: nat, p: nat, count: nat)
    requires capacity > 0 && d > 0 && NoneOvershot(total, offers, capacity, d, p, count)
    requires total < p || p <= Received(total, offers, capacity, count)
    ensures !Overshoots(total, offers, capacity, d, p)
  {
    hide OvershootsAt, Received, Slot;
    forall k: nat
      ensures !OvershootsAt(total, offers, capacity, d, p, k)
    {
      if k >= count {
        ReceivedMonotone(total, offers, capacity, count, k);
        FallsShort(total, offers, capacity, d, p, k);
      }
    }
  }

  /** The file holds, and the hasher has seen, the data up to q. */
  ghost predicate Stored(stream: seq<byte>, files: map<seq<byte>, seq<byte>>, path: seq<byte>,
                         crc: bv32, d: nat, q: nat)
  {
    && d <= q <= |stream|
    && path in files && files[path] == stream[d..q]
    && crc == Crc(stream[d..q])
  }

  lemma NothingStored(stream: seq<byte>, files: map<seq<byte>, seq<byte>>, path: seq<byte>, d: nat)
    requires d <= |stream| && path in files && files[path] == []
    ensures Stored(stream, files, path, 0, d, d)
  {
    hide Update;
    UpdateEmpty(0);
    assert stream[d..d] == [];
  }

  /** Lines 345-348, 400-402 and 415-417: the next n unprocessed octets go to the file and the hasher. */
  method Store(socket: Input, buf: array<byte>, start: nat, end: nat, n: nat,
               disk: Disk, path: seq<byte>, crc: bv32, ghost d: nat)
    returns (crc': bv32)
    requires Synced(socket, buf, end) && start + n <= end
    requires Stored(socket.stream, disk.files, path, crc, d, socket.taken - end + start)
    modifies disk`files
    ensures Stored(socket.stream, disk.files, path, crc', d, socket.taken - end + start + n)
    ensures disk.files - {path} == old(disk.files) - {path}
  {
    hide Update;
    ghost var q := socket.taken - end + start;
    Window(socket, buf, start, end, n);
    disk.Append(path, buf[start..start + n]);
    crc' := Update(crc, buf[start..start + n]);
    UpdateAppend(0, socket.stream[d..q], socket.stream[q..q + n]);
    assert socket.stream[d..q] + socket.stream[q..q + n] == socket.stream[d..q + n];
  }

  /**
   Octets before `start` are stored, those from `start` to `end` are not, and `remaining`
   octets of data are unstored. The data ends at p. Only its last chunk can leave anything
   unprocessed in the buffer.
   */
  ghost predicate Receiving(socket: Input, buf: array<byte>, start: nat, end: nat, p: nat, remaining: nat)
    reads socket, buf
  {
    && start <= end && Synced(socket, buf, end)
    && socket.taken - end + start + remaining == p
    && (remaining > 0 ==> start == end)
    && start > 0 && AtIndex(p - remaining, buf.Length, start)
    && Prompt(socket, buf.Length, p)
  }

  datatype Progress = Going | Cut | Dead

  /** One turn of the loop at lines 358-435. */
  method ReceiveChunk(socket: Input, buf: array<byte>, start: nat, end: nat, remaining: nat,
                      rule: Rule, disk: Disk, path: seq<byte>, crc: bv32, ghost d: nat, ghost p: nat)
    returns (progress: Progress, start': nat, end': nat, remaining': nat, crc': bv32)
    requires 0 < remaining < 0x1_0000_0000 && buf.Length < 0x1_0000_0000
    requires Receiving(socket, buf, start, end, p, remaining) && 0 < d <= p - remaining
    requires Stored(socket.stream, disk.files, path, crc, d, p - remaining)
    requires rule.AsWritten? ==> NoneOvershot(|socket.stream|, socket.offers, buf.Length, d, p, socket.calls)
    modifies socket, buf, disk`files
    ensures disk.files - {path} == old(disk.files) - {path}
    ensures progress.Cut? ==>
              && |socket.stream| == p - remaining
              && Stored(socket.stream, disk.files, path, crc', d, |socket.stream|)
    ensures progress.Dead? ==>
              && rule.AsWritten? && Overshoots(|socket.stream|, socket.offers, buf.Length, d, p)
              && Stored(socket.stream, disk.files, path, crc', d, p)
    ensures progress.Going? ==>
              && remaining' < remaining
              && Receiving(socket, buf, start', end', p, remaining')
              && Stored(socket.stream, disk.files, path, crc', d, p - remaining')
              && (rule.AsWritten? ==> NoneOvershot(|socket.stream|, socket.offers, buf.Length, d, p, socket.calls))
    ensures socket.calls <= p
  {
    hide AtIndex, NoneOvershot, Overshoots, OvershootsAt, Received, Stored, Synced;
    ghost var total, offers, capacity := |socket.stream|, socket.offers, buf.Length;
    ghost var before, k := socket.taken, socket.calls;
    start', end', remaining', crc' := start, end, remaining, crc;
    if start' == buf.Length {
      Refill(socket, buf);
      end' := 0;
      start' := 0;
    }
    var n := ReadMore(socket, buf, end');
    if n == 0 {
      return Cut, start', end', remaining', crc';
    }
    end' := end' + n;
    if end' > start' + remaining' {
      GoesPast(total, offers, capacity, d, p, k, start');
      InStep(before, capacity, start', remaining');
      OneMore(total, offers, capacity, d, p, k);
      crc' := Store(socket, buf, start', end', remaining', disk, path, crc', d);
      start' := start' + remaining';
      if rule.AsWritten? {
        remaining' := (remaining' - start') % 0x1_0000_0000;
        if remaining' != 0 {
          Witness(total, offers, capacity, d, p, k);
          return Dead, start', end', remaining', crc';
        }
      } else {
        remaining' := 0;
      }
    } else {
      FallsShort(total, offers, capacity, d, p, k);
      OneMore(total, offers, capacity, d, p, k);
      crc' := Store(socket, buf, start', end', n, disk, path, crc', d);
      start' := start' + n;
      remaining' := remaining' - n;
    }
    progress := Going;
  }

  lemma OneMore(total: nat, offers: nat -> nat, capacity: nat, d: nat, p: nat, k: nat)
    requires capacity > 0 && d > 0
    ensures NoneOvershot(total, offers, capacity, d, p, k) && !OvershootsAt(total, offers, capacity, d, p, k)
            ==> NoneOvershot(total, offers, capacity, d, p, k + 1)
  {
    hide OvershootsAt;
  }

  lemma FirstChunk(socket: Input, buf: array<byte>, end: nat)
    requires Synced(socket, buf, end)
    ensures 0 < buf.Length && end <= buf.Length && end <= socket.taken <= |socket.stream|
  {}

  lemma SmallIndex(p: nat, capacity: nat)
    requires 0 < p <= capacity
    ensures AtIndex(p, capacity, p)
  {}

  lemma PromptLater(socket: Input, capacity: nat, p: nat, q: nat)
    requires capacity > 0 && p <= q && Prompt(socket, capacity, p)
    ensures Prompt(socket, capacity, q) && socket.calls <= q
  {}

  lemma TooShort(total: nat, offers: nat -> nat, capacity: nat, d: nat, p: nat)
    requires capacity > 0 && d > 0 && total < p
    ensures !Overshoots(total, offers, capacity, d, p)
  {
    hide OvershootsAt;
    assert NoneOvershot(total, offers, capacity, d, p, 0);
    NoneWillOvershoot(total, offers, capacity, d, p, 0);
  }

  /** The loop ends with all data processed, and never with a read that it still had to ask for. */
  lemma DataComplete(socket: Input, buf: array<byte>, start: nat, end: nat, d: nat, p: nat)
    requires d > 0 && Receiving(socket, buf, start, end, p, 0)
    ensures start == Slot(p, buf.Length) && socket.calls <= p
    ensures NoneOvershot(|socket.stream|, socket.offers, buf.Length, d, p, socket.calls)
            ==> !Overshoots(|socket.stream|, socket.offers, buf.Length, d, p)
  {
    hide Overshoots, OvershootsAt, Received, Slot, NoneOvershot;
    if NoneOvershot(|socket.stream|, socket.offers, buf.Length, d, p, socket.calls) {
      NoneWillOvershoot(|socket.stream|, socket.offers, buf.Length, d, p, socket.calls);
    }
  }

  lemma Witness(total: nat, offers: nat -> nat, capacity: nat, d: nat, p: nat, k: nat)
    requires capacity > 0 && d > 0 && OvershootsAt(total, offers, capacity, d, p, k)
    ensures Overshoots(total, offers, capacity, d, p)
  {}

  /** The part of the data, which lies between d and p, that the stream holds. */
  function DataSoFar(stream: seq<byte>, d: nat, p: nat): seq<byte>
    requires d <= |stream| && d <= p
  {
    stream[d..if p <= |stream| then p else |stream|]
  }

  datatype Reception = Whole(crc: bv32) | Partial | Aborted

  /**
   Lines 322-435: store the data. What the buffer holds beyond the header goes first;
   then every read appends to the buffer, which is refilled from the start when full.
   Reading ends with the chunk that completes the data, and that chunk may overshoot.
   */
  method ReceiveData(socket: Input, buf: array<byte>, start: nat, end: nat, length: nat,
                     rule: Rule, disk: Disk, path: seq<byte>)
    returns (reception: Reception, start': nat, end': nat)
    requires 0 < start <= end == socket.taken && Synced(socket, buf, end)
    requires Prompt(socket, buf.Length, start)
    requires length < 0x1_0000_0000 && buf.Length < 0x1_0000_0000
    requires path in disk.files && disk.files[path] == []
    modifies socket, buf, disk`files
    ensures reception.Aborted? <==>
            rule.AsWritten? && Overshoots(|socket.stream|, socket.offers, buf.Length, start, start + length)
    ensures !reception.Aborted? ==> (reception.Partial? <==> |socket.stream| < start + length)
    ensures reception.Whole? ==>
              && reception.crc == Crc(socket.stream[start..start + length])
              && start' <= end' && Synced(socket, buf, end')
              && start' == Slot(start + length, buf.Length)
              && socket.taken - end' + start' == start + length
              && Prompt(socket, buf.Length, start + length)
    ensures disk.files - {path} == old(disk.files) - {path}
    ensures path in disk.files && disk.files[path] == DataSoFar(socket.stream, start, start + length)
    ensures socket.calls <= start + length
  {
    hide AtIndex, Crc, NoneOvershot, Overshoots, OvershootsAt, Prompt, Received, Slot, Synced;
    ghost var d, p := start, start + length;
    ghost var total, offers, capacity := |socket.stream|, socket.offers, buf.Length;
    FirstChunk(socket, buf, end);
    var remaining: nat := length;
    var first := if start + length < end then length else end - start;
    NothingStored(socket.stream, disk.files, path, d);
    var crc := Store(socket, buf, start, end, first, disk, path, 0, d);
    remaining := remaining - first;
    start', end' := start + first, end;
    SmallIndex(start', capacity);
    PromptLater(socket, capacity, d, p);
    HeaderReadsFallShort(socket, capacity, d, p);

    while end' - start' < remaining
      invariant Receiving(socket, buf, start', end', p, remaining) && remaining <= length
      invariant disk.files - {path} == old(disk.files) - {path}
      invariant Stored(socket.stream, disk.files, path, crc, d, p - remaining)
      invariant rule.AsWritten? ==> NoneOvershot(total, offers, capacity, d, p, socket.calls)
      decreases remaining
    {
      var progress;
      progress, start', end', remaining, crc :=
        ReceiveChunk(socket, buf, start', end', remaining, rule, disk, path, crc, d, p);
      if progress.Cut? {
        TooShort(total, offers, capacity, d, p);
        return Partial, start', end';
      }
      if progress.Dead? {
        return Aborted, start', end';
      }
    }
    DataComplete(socket, buf, start', end', d, p);
    reception := Whole(crc);
  }

  // ---------------------------------------------------------------- whole requests

  datatype SaveOutcome = Answered(verdict: Verdict) | Panicked

  /** What saving a file comes to, under either rule. */
  ghost function SaveResult(stream: seq<byte>, offers: nat -> nat, capacity: nat, rule: Rule): SaveOutcome
    requires capacity > 0
  {
    if rule.AsWritten? && Stumbles(stream, offers, capacity) then Panicked
    else Answered(JudgeSave(stream, capacity))
  }

  /** Creating a file and then changing only that file. */
  lemma OnlyThatFile(before: map<seq<byte>, seq<byte>>, after: map<seq<byte>, seq<byte>>, path: seq<byte>)
    requires path in after && after - {path} == before[path := []] - {path}
    ensures after == before[path := after[path]]
  {
    forall other | other != path
      ensures other in after <==> other in before
      ensures other in after ==> after[other] == before[other]
    {
      assert other in after <==> other in after - {path};
      assert other in before <==> other in before[path := []] - {path};
    }
  }

  lemma FourOctets(s: seq<byte>)
    requires |s| == 4
    ensures FromBigEndian(s) < 0x1_0000_0000
  {
    Widths();
    EncodeDecode(s);
  }

  lemma ChecksumIsCrc(s: seq<byte>)
    ensures Checksum(s) == Crc(s) as int
  {}

  /** Lines 322-463: the data, its checksum, and the answer. */
  method FinishFile(socket: Input, buf: array<byte>, start: nat, end: nat, length: nat,
                    rule: Rule, disk: Disk, path: seq<byte>)
    returns (outcome: SaveOutcome, start': nat, end': nat)
    requires 0 < start <= end == socket.taken && Synced(socket, buf, end)
    requires Prompt(socket, buf.Length, start)
    requires length < 0x1_0000_0000 && buf.Length < 0x1_0000_0000
    requires path in disk.files && disk.files[path] == []
    modifies socket, buf, disk`files
    ensures buf.Length > 0 && outcome ==
            if rule.AsWritten? && Overshoots(|socket.stream|, socket.offers, buf.Length, start, start + length)
            then Panicked
            else Answered(JudgeData(socket.stream, buf.Length, path, start, start + length))
    ensures disk.files - {path} == old(disk.files) - {path}
    ensures path in disk.files && disk.files[path] == DataSoFar(socket.stream, start, start + length)
    ensures outcome.Answered? && outcome.verdict.Saved? ==>
              && start' <= end' <= buf.Length && Synced(socket, buf, end')
              && socket.taken - end' + start' == start + length + 4
              && buf[start'..end'] == socket.stream[start + length + 4..socket.taken]
    ensures socket.calls <= start + length + 4
  {
    hide Checksum, Crc, FromBigEndian, Overshoots, Prompt, Slot, Synced;
    FirstChunk(socket, buf, end);
    var reception;
    reception, start', end' := ReceiveData(socket, buf, start, end, length, rule, disk, path);
    if reception.Aborted? {
      return Panicked, start', end';
    }
    if reception.Partial? {
      return Answered(Rejected(DataCut)), start', end';
    }
    ChecksumIsCrc(socket.stream[start..start + length]);

    var ok, received;
    ok, received, start', end' := ReadChecksum(socket, buf, start', end');
    if !ok {
      return Answered(Rejected(DataChecksumCut)), start', end';
    }
    if received != reception.crc as int {
      return Answered(Rejected(DataMismatch)), start', end';
    }
    Window(socket, buf, start', end', end' - start');
    outcome := Answered(Saved(path));
  }

  /** save_file, lines 260-464. */
  method SaveFile(socket: Input, buf: array<byte>, end: nat, start: nat, rule: Rule, disk: Disk)
    returns (outcome: SaveOutcome, start': nat, end': nat)
    requires start == 1 && socket.taken == end >= start && Synced(socket, buf, end)
    requires Prompt(socket, buf.Length, 1) && buf.Length < 0x1_0000_0000
    modifies socket, buf, disk
    ensures buf.Length > 0 && outcome == SaveResult(socket.stream, socket.offers, buf.Length, rule)
    ensures disk.files == FilesAfter(old(disk.files), socket.stream, buf.Length)
    ensures disk.parents == old(disk.parents) + PathsAccepted(socket.stream, buf.Length)
    ensures outcome.Answered? && outcome.verdict.Saved? ==>
              && start' <= end' <= buf.Length && Synced(socket, buf, end')
              && socket.taken - end' + start' == DeclaredLength(socket.stream)
              && buf[start'..end'] == socket.stream[DeclaredLength(socket.stream)..socket.taken]
    ensures socket.calls <= DeclaredLength(socket.stream)
  {
    hide FromBigEndian, JudgeData, JudgePath, Overshoots, Prompt, Synced;
    FirstChunk(socket, buf, end);
    ghost var files := disk.files;
    var folder;
    folder, start', end' := CreateParentFolder(socket, buf, end, start, disk);
    if folder.PathRejected? {
      return Answered(Rejected(folder.why)), start', end';
    }
    var path := folder.path;
    disk.Create(path);

    var ok;
    ok, end' := Fill(socket, buf, start', end', 4);
    if !ok {
      return Answered(Rejected(DataLengthCut)), start', end';
    }
    Window(socket, buf, start', end', 4);
    FourOctets(buf[start'..start' + 4]);
    var length := FromBigEndian(buf[start'..start' + 4]);
    start' := start' + 4;
    outcome, start', end' := FinishFile(socket, buf, start', end', length, rule, disk, path);
    OnlyThatFile(files, disk.files, path);
  }

  // ---------------------------------------------------------------- connections

  datatype Response = Closed(served: Served) | Died

  ghost function Answer(stream: seq<byte>, offers: nat -> nat, capacity: nat, rule: Rule): Response
    requires capacity > 0
  {
    if stream != [] && stream[0] == SAVE_FILE && rule.AsWritten? && Stumbles(stream, offers, capacity) then Died
    else Closed(JudgeRequest(stream, capacity))
  }

  /** Lines 496-522: the first octet of the buffer says what is asked for. */
  method Dispatch(socket: Input, buf: array<byte>, n: nat, rule: Rule, disk: Disk) returns (response: Response)
    requires 0 < n == socket.taken && Synced(socket, buf, n)
    requires Prompt(socket, buf.Length, 1) && buf.Length < 0x1_0000_0000
    requires socket.stream != [] && buf[0] == socket.stream[0]
    modifies socket, buf, disk
    ensures response == Answer(socket.stream, socket.offers, buf.Length, rule)
    ensures disk.files ==
            if socket.stream[0] == SAVE_FILE then FilesAfter(old(disk.files), socket.stream, buf.Length)
            else old(disk.files)
    ensures disk.parents == old(disk.parents) +
            if socket.stream[0] in {CREATE_PARENT_FOLDER, SAVE_FILE} then PathsAccepted(socket.stream, buf.Length)
            else {}
    ensures socket.calls <= MostReads(socket.stream)
  {
    hide FilesAfter, JudgePath, JudgeSave, Prompt, Stumbles, Synced;
    FirstChunk(socket, buf, n);
    if buf[0] == CREATE_PARENT_FOLDER {
      var folder, _, _ := CreateParentFolder(socket, buf, n, 1, disk);
      response := Closed(Folder(folder));
    } else if buf[0] == SAVE_FILE {
      var outcome, _, _ := SaveFile(socket, buf, n, 1, rule, disk);
      response := if outcome.Panicked? then Died else Closed(File(outcome.verdict));
    } else {
      assert socket.calls <= 1 by { OneCall(socket, buf.Length); }
      response := Closed(UnknownOperation);
    }
  }

  lemma OneCall(socket: Input, capacity: nat)
    requires capacity > 0 && Prompt(socket, capacity, 1)
    ensures socket.calls <= 1
  {}

  /** Lines 478-487: the first read, into the whole buffer. */
  method ReadFirst(socket: Input, buf: array<byte>) returns (n: nat)
    requires socket.Valid() && socket.taken == socket.calls == 0 && buf.Length > 0
    modifies socket, buf
    ensures n == socket.taken && socket.calls == 1 && (n == 0 <==> socket.stream == [])
    ensures n > 0 ==> Synced(socket, buf, n) && Prompt(socket, buf.Length, 1) && buf[0] == socket.stream[0]
  {
    assert Synced(socket, buf, 0);
    n := ReadMore(socket, buf, 0);
    hide Slot, AtIndex;
    if n > 0 {
      Window(socket, buf, 0, n, 1);
      assert buf[0..1] == socket.stream[0..1];
      assert buf[0] == buf[0..1][0] == socket.stream[0..1][0];
    }
  }

  /** The task `run` spawns for a connection, lines 477-528, without the reply octets. */
  method Serve(socket: Input, capacity: nat, rule: Rule, disk: Disk) returns (response: Response)
    requires socket.Valid() && socket.taken == socket.calls == 0
    requires 0 < capacity < 0x1_0000_0000
    modifies socket, disk
    ensures response == Answer(socket.stream, socket.offers, capacity, rule)
    ensures disk.files ==
            if socket.stream != [] && socket.stream[0] == SAVE_FILE
            then FilesAfter(old(disk.files), socket.stream, capacity) else old(disk.files)
    ensures disk.parents == old(disk.parents) +
            if socket.stream != [] && socket.stream[0] in {CREATE_PARENT_FOLDER, SAVE_FILE}
            then PathsAccepted(socket.stream, capacity) else {}
    ensures socket.calls <= MostReads(socket.stream)
  {
    hide AtIndex, DeclaredLength, DeclaredPathLength, FilesAfter, JudgePath, JudgeSave, PathsAccepted;
    hide Prompt, Received, Slot, Stumbles, Synced;
    var buf := new byte[capacity](_ => 0);
    var n := ReadFirst(socket, buf);
    if n == 0 {
      return Closed(NoRequest);
    }
    hide Answer, MostReads;
    response := Dispatch(socket, buf, n, rule, disk);
  }
}
