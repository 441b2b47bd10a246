/** The sending side: one frame, streamed through the buffer that first held its header. */
module TransferClient {
  import opened Bytes
  import opened Chunks
  import opened Crc32
  import opened TransferFrame

  datatype SendOutcome = Sent | TooLarge | Panicked

  function Header(path: seq<byte>, length: nat): (h: seq<byte>)
    ensures |h| == 11 + |path|
  {
    [SAVE_FILE] + Part(path, 2) + ToBigEndian(length, 4)
  }

  /** Lines 154-155 and 61-71, and the slice at line 84. */
  function SendResult(path: seq<byte>, data: seq<byte>, capacity: nat): SendOutcome {
    if |path| >= 0x1_0000 then Panicked
    else if |data| >= 0x1_0000_0000 then TooLarge
    else if capacity < 11 + |path| then Panicked
    else Sent
  }

  /** The checksum so far is the checksum of what has been read. */
  lemma NextPiece(data: seq<byte>, from: nat, to: nat)
    requires from <= to <= |data|
    ensures Update(Crc(data[..from]), data[from..to]) == Crc(data[..to])
    ensures data[..from] + data[from..to] == data[..to]
  {
    hide Update;
    UpdateAppend(0, data[..from], data[from..to]);
    assert data[..from] + data[from..to] == data[..to];
  }

  lemma FreshHasher(data: seq<byte>)
    ensures Crc(data[..0]) == 0
  {
    hide Update;
    UpdateEmpty(0);
  }

  lemma WholeFrame(path: seq<byte>, data: seq<byte>)
    ensures Header(path, |data|) + data + ToBigEndian(Crc(data) as int, 4) == Frame(path, data)
  {
    hide Crc;
  }

  /** The loop at lines 96-109: every further read reuses the whole buffer. */
  method StreamRest(file: Input, buf: array<byte>, stream: Output, crc: bv32) returns (crc': bv32)
    requires file.Valid() && buf.Length > 0 && crc == Crc(file.stream[..file.taken])
    modifies file, buf, stream
    ensures stream.sent == old(stream.sent) + file.stream[old(file.taken)..]
    ensures crc' == Crc(file.stream)
  {
    hide Crc, Update;
    crc' := crc;
    ghost var from := file.taken;
    while true
      invariant file.Valid() && from <= file.taken
      invariant stream.sent == old(stream.sent) + file.stream[from..file.taken]
      invariant crc' == Crc(file.stream[..file.taken])
      decreases |file.stream| - file.taken
    {
      var n := file.Read(buf, 0);
      if n == 0 {
        break;
      }
      NextPiece(file.stream, file.taken - n, file.taken);
      assert file.stream[from..file.taken - n] + buf[0..n] == file.stream[from..file.taken];
      stream.WriteAll(buf[0..n]);
      crc' := Update(crc', buf[0..n]);
    }
    assert file.stream[..file.taken] == file.stream;
  }

  lemma FirstPiece(buf: array<byte>, header: seq<byte>, n: nat, data: seq<byte>)
    requires |header| + n <= buf.Length && n <= |data|
    requires buf[..|header|] == header && buf[|header|..|header| + n] == data[0..n]
    ensures buf[..|header| + n] == header + data[..n]
    ensures Update(0, buf[|header|..|header| + n]) == Crc(data[..n])
  {
    hide Crc, Update;
    FreshHasher(data);
    NextPiece(data, 0, n);
    assert buf[..|header| + n] == buf[..|header|] + buf[|header|..|header| + n];
  }

  /** Lines 77-94: what the file adds to the buffer that holds the header, and the first write. */
  method StartFrame(header: seq<byte>, file: Input, buf: array<byte>, stream: Output) returns (crc: bv32)
    requires file.Valid() && file.taken == 0
    requires |header| <= buf.Length && buf[..|header|] == header
    modifies file, buf, stream
    ensures file.Valid() && crc == Crc(file.stream[..file.taken])
    ensures stream.sent == old(stream.sent) + (header + file.stream[..file.taken])
  {
    hide Crc, ReadSize, Update;
    var current := |header|;
    var n := file.Read(buf, current);
    FirstPiece(buf, header, n, file.stream);
    crc := Update(0, buf[current..current + n]);
    current := current + n;
    stream.WriteAll(buf[..current]);
  }

  lemma Assembled(sent: seq<byte>, header: seq<byte>, data: seq<byte>, n: nat, sum: seq<byte>)
    requires n <= |data|
    ensures sent + (header + data[..n]) + data[n..] + sum == sent + (header + data + sum)
  {
    assert data[..n] + data[n..] == data;
  }

  /** send_file, lines 40-132. */
  method SendFile(path: seq<byte>, file: Input, stream: Output, capacity: nat) returns (outcome: SendOutcome)
    requires file.Valid() && file.taken == 0 && capacity > 0
    modifies file, stream
    ensures outcome == SendResult(path, file.stream, capacity)
    ensures stream.sent == old(stream.sent) + if outcome.Sent? then Frame(path, file.stream) else []
  {
    hide Crc, Frame, Header, ToBigEndian, Update;
    if |path| >= 0x1_0000 {
      return Panicked;
    }
    if |file.stream| >= 0x1_0000_0000 {
      return TooLarge;
    }
    var header := Header(path, |file.stream|);
    if |header| > capacity {
      return Panicked;
    }
    var buf := new byte[capacity](i => if 0 <= i < |header| then header[i] else 0);
    assert buf[..|header|] == header;
    var crc := StartFrame(header, file, buf, stream);
    ghost var n := file.taken;
    crc := StreamRest(file, buf, stream, crc);
    ghost var octets := ToBigEndian(crc as int, 4);
    stream.WriteAll(ToBigEndian(crc as int, 4));
    WholeFrame(path, file.stream);
    Assembled(old(stream.sent), header, file.stream, n, octets);
    outcome := Sent;
  }
}
