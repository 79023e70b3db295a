/** Length-prefixed packets over a byte stream: the reassembly buffer, the framing loop and the packet layout. */
module Packets {
  import opened Bytes
  import opened Options

  const HEADER_SIZE := 4
  const MAX_PACKET := 8192
  const CAPACITY := 65536

  datatype Packet = Packet(id: nat, payload: seq<u8>)

  /** Two bytes, least significant first. */
  function ReadLE16(s: seq<u8>): (n: nat)
    requires |s| >= 2
    ensures n < 0x1_0000
  {
    s[0] as int + s[1] as int * 256
  }

  function WriteLE16(n: nat): seq<u8> { [n % 256, n / 256 % 256] }

  /** What is left of a stream, and whether the connection was closed. */
  datatype Parsed = Parsed(packets: seq<Packet>, rest: seq<u8>, closed: bool)

  /** The framing of a byte stream, with no limit on what is held at once. */
  function Parse(s: seq<u8>): Parsed {
    if |s| < HEADER_SIZE then Parsed([], s, false)
    else
      var size := ReadLE16(s);
      if size < HEADER_SIZE || size > MAX_PACKET then Parsed([], s, true)
      else if |s| < size then Parsed([], s, false)
      else Prefixed([Packet(ReadLE16(s[2..]), s[HEADER_SIZE..size])], Parse(s[size..]))
  }

  function Prefixed(packets: seq<Packet>, p: Parsed): Parsed { p.(packets := packets + p.packets) }

  /** One call of OnRecv on a connection that holds `rest`; a closed connection gets no more calls. */
  function Receive(rest: seq<u8>, closed: bool, data: seq<u8>): Parsed {
    if closed then Parsed([], rest, true)
    else if |rest| + |data| > CAPACITY then Parsed([], rest, true)
    else Parse(rest + data)
  }

  function ReceiveAll(rest: seq<u8>, closed: bool, chunks: seq<seq<u8>>): Parsed
    decreases |chunks|
  {
    if chunks == [] then Parsed([], rest, closed)
    else
      var r := Receive(rest, closed, chunks[0]);
      Prefixed(r.packets, ReceiveAll(r.rest, r.closed, chunks[1..]))
  }

  // ---------------------------------------------------------------- chunking

  /** Fewer bytes than the largest packet are left over, and parsing them again yields nothing. */
  lemma {:induction false} RestIsShort(s: seq<u8>)
    requires !Parse(s).closed
    ensures |Parse(s).rest| < MAX_PACKET && Parse(Parse(s).rest) == Parsed([], Parse(s).rest, false)
  {
    if |s| >= HEADER_SIZE && ReadLE16(s) <= |s| {
      RestIsShort(s[ReadLE16(s)..]);
    }
  }

  /** With a header at hand, the connection is closed at once exactly when the size field is below 4 or above 8192. */
  lemma ClosesAtOnceIff(s: seq<u8>)
    requires |s| >= 4
    ensures Parse(s).closed && Parse(s).packets == [] <==>
            s[0] as int + 256 * (s[1] as int) < 4 || s[0] as int + 256 * (s[1] as int) > 8192
    ensures Parse(s).closed && Parse(s).packets == [] ==> Parse(s).rest == s
  {
    var size := ReadLE16(s);
    if HEADER_SIZE <= size <= MAX_PACKET && size <= |s| {
      assert Parse(s).packets != [];
    }
  }

  /** Parsing one piece and then what it left with the next is parsing both at once, unless the first piece closes. */
  ghost predicate Splits(a: seq<u8>, b: seq<u8>) {
    var p := Parse(a);
    if p.closed then Parse(a + b) == Parsed(p.packets, p.rest + b, true)
    else Parse(a + b) == Prefixed(p.packets, Parse(p.rest + b))
  }

  lemma {:induction false} ParseSplit(a: seq<u8>, b: seq<u8>)
    ensures Splits(a, b)
  {
    if |a| < HEADER_SIZE {
      NoPackets(Parse(a + b));
    } else {
      var size := ReadLE16(a);
      assert ReadLE16(a + b) == size;
      if size < HEADER_SIZE || size > MAX_PACKET {
      } else if |a| < size {
        NoPackets(Parse(a + b));
      } else {
        ParseSplit(a[size..], b);
        assert (a + b)[size..] == a[size..] + b && (a + b)[HEADER_SIZE..size] == a[HEADER_SIZE..size];
        assert ReadLE16((a + b)[2..]) == ReadLE16(a[2..]);
        var p := Packet(ReadLE16(a[2..]), a[HEADER_SIZE..size]);
        PrefixedTwice([p], Parse(a[size..]).packets, Parse(Parse(a).rest + b));
      }
    }
  }

  lemma NoPackets(p: Parsed)
    ensures Prefixed([], p) == p
  {
  }

  lemma PrefixedTwice(first: seq<Packet>, second: seq<Packet>, p: Parsed)
    ensures Prefixed(first, Prefixed(second, p)) == Prefixed(first + second, p)
  {
  }

  lemma {:induction false} NothingAfterClose(rest: seq<u8>, chunks: seq<seq<u8>>)
    ensures ReceiveAll(rest, true, chunks) == Parsed([], rest, true)
    decreases |chunks|
  {
    if chunks != [] { NothingAfterClose(rest, chunks[1..]); }
  }

  /**
   * However a stream is cut into pieces of at most 57345 bytes, the same packets come out, the connection is closed or
   * not for the same reason, and the buffer never overflows.
   */
  lemma {:induction false} AnyChunking(rest: seq<u8>, chunks: seq<seq<u8>>)
    requires Parse(rest) == Parsed([], rest, false)
    requires forall i :: 0 <= i < |chunks| ==> |chunks[i]| <= CAPACITY - (MAX_PACKET - 1)
    ensures var r, once := ReceiveAll(rest, false, chunks), Parse(rest + Concat(chunks));
            r.packets == once.packets && r.closed == once.closed && (!r.closed ==> r.rest == once.rest)
    decreases |chunks|
  {
    RestIsShort(rest);
    if chunks == [] {
      assert rest + [] == rest;
    } else {
      var a, b := rest + chunks[0], Concat(chunks[1..]);
      ParseSplit(a, b);
      assert a + b == rest + Concat(chunks);
      var r := Parse(a);
      if r.closed {
        NothingAfterClose(r.rest, chunks[1..]);
        assert r.packets + [] == r.packets;
      } else {
        RestIsShort(a);
        AnyChunking(r.rest, chunks[1..]);
      }
    }
  }

  /** A piece never overflows the buffer, whatever is held, exactly when it has at most 57345 bytes. */
  lemma NoOverflowIff(n: nat)
    ensures (forall rest: seq<u8> :: Parse(rest) == Parsed([], rest, false) ==> |rest| + n <= CAPACITY) <==> n <= 57345
  {
    forall rest: seq<u8> | Parse(rest) == Parsed([], rest, false) ensures |rest| < MAX_PACKET {
      RestIsShort(rest);
    }
    var full: seq<u8> := [0, 32] + seq(8189, _ => 0);
    assert ReadLE16(full) == 8192 && |full| == 8191;
    assert Parse(full) == Parsed([], full, false);
  }

  // ---------------------------------------------------------------- packets built by the server

  /** The size field holds the low sixteen bits of the total. */
  function Build(p: Packet): seq<u8> {
    WriteLE16((HEADER_SIZE + |p.payload|) % 0x1_0000) + WriteLE16(p.id) + p.payload
  }

  function BuildAll(ps: seq<Packet>): seq<u8> {
    if ps == [] then [] else Build(ps[0]) + BuildAll(ps[1..])
  }

  lemma LE16RoundTrip(n: nat, s: seq<u8>)
    requires n < 0x1_0000
    ensures ReadLE16(WriteLE16(n) + s) == n
  {
  }

  lemma HeaderRead(p: Packet, s: seq<u8>)
    requires p.id < 0x1_0000
    ensures ReadLE16(Build(p) + s) == (HEADER_SIZE + |p.payload|) % 0x1_0000
    ensures ReadLE16((Build(p) + s)[2..]) == p.id
  {
    LE16RoundTrip((HEADER_SIZE + |p.payload|) % 0x1_0000, WriteLE16(p.id) + p.payload + s);
    LE16RoundTrip(p.id, p.payload + s);
    assert (Build(p) + s)[2..] == WriteLE16(p.id) + (p.payload + s);
  }

  /** A packet of at most 8192 bytes is recovered, in front of anything. */
  lemma PacketParsed(p: Packet, s: seq<u8>)
    requires p.id < 0x1_0000 && HEADER_SIZE + |p.payload| <= MAX_PACKET
    ensures Parse(Build(p) + s) == Prefixed([p], Parse(s))
  {
    HeaderRead(p, s);
    var buf, size := Build(p) + s, HEADER_SIZE + |p.payload|;
    assert ReadLE16(buf) == size <= |buf|;
    assert buf[size..] == s && buf[HEADER_SIZE..size] == p.payload;
  }

  lemma {:induction false} BuiltRecovered(ps: seq<Packet>)
    requires forall i :: 0 <= i < |ps| ==> ps[i].id < 0x1_0000 && HEADER_SIZE + |ps[i].payload| <= MAX_PACKET
    ensures Parse(BuildAll(ps)) == Parsed(ps, [], false)
  {
    if ps != [] {
      PacketParsed(ps[0], BuildAll(ps[1..]));
      BuiltRecovered(ps[1..]);
      assert ps == [ps[0]] + ps[1..];
    }
  }

  /** One built packet is recovered exactly when it has at most 8192 bytes in all. */
  lemma RecoveredIff(p: Packet)
    requires p.id < 0x1_0000
    ensures Parse(Build(p)) == Parsed([p], [], false) <==> 4 + |p.payload| <= 8192
  {
    assert Build(p) + [] == Build(p);
    if HEADER_SIZE + |p.payload| <= MAX_PACKET {
      PacketParsed(p, []);
    } else {
      HeaderRead(p, []);
      var size := ReadLE16(Build(p));
      if HEADER_SIZE <= size <= MAX_PACKET {
        assert |Parse(Build(p)).packets[0].payload| == size - HEADER_SIZE;
      }
    }
  }

  // ---------------------------------------------------------------- the reassembly buffer

  class RecvBuffer {
    const buffer: array<u8>
    var readPos: nat
    var writePos: nat

    ghost predicate Valid()
      reads this
    {
      readPos <= writePos <= buffer.Length
    }

    /** The bytes written and not read yet. */
    ghost function Contents(): seq<u8>
      requires Valid()
      reads this, buffer
    {
      buffer[readPos..writePos]
    }

    constructor (capacity: nat)
      ensures Valid() && fresh(buffer) && buffer.Length == capacity && Contents() == []
    {
      buffer := new u8[capacity](_ => 0);
      readPos, writePos := 0, 0;
    }

    method Append(data: seq<u8>) returns (ok: bool)
      requires Valid()
      modifies this, buffer
      ensures Valid() && (ok <==> |old(Contents())| + |data| <= buffer.Length)
      ensures Contents() == if ok then old(Contents()) + data else old(Contents())
    {
      if buffer.Length - writePos < |data| {
        Compact();
      }
      if buffer.Length - writePos < |data| {
        return false;
      }
      Write(data);
      writePos := writePos + |data|;
      return true;
    }

    /** Copies behind the written part. */
    method Write(data: seq<u8>)
      requires Valid() && writePos + |data| <= buffer.Length
      modifies buffer
      ensures buffer[..writePos] == old(buffer[..writePos]) && buffer[writePos..writePos + |data|] == data
    {
      for i := 0 to |data|
        invariant buffer[..writePos] == old(buffer[..writePos]) && buffer[writePos..writePos + i] == data[..i]
      {
        buffer[writePos + i] := data[i];
      }
      assert data[..|data|] == data;
    }

    method OnRead(bytes: nat)
      requires Valid() && bytes <= |Contents()|
      modifies this
      ensures Valid() && Contents() == old(Contents())[bytes..]
    {
      readPos := readPos + bytes;
      if readPos == writePos {
        readPos, writePos := 0, 0;
      }
    }

    /** Moves the unread bytes to the front. */
    method Compact()
      requires Valid()
      modifies this, buffer
      ensures Valid() && readPos == 0 && Contents() == old(Contents())
    {
      if readPos == 0 {
        return;
      }
      var remaining := writePos - readPos;
      for i := 0 to remaining
        invariant readPos == old(readPos) && writePos == old(writePos)
        invariant forall k :: 0 <= k < i ==> buffer[k] == old(buffer[readPos + k])
        invariant forall k :: i <= k < buffer.Length ==> buffer[k] == old(buffer[k])
      {
        buffer[i] := buffer[readPos + i];
      }
      readPos, writePos := 0, remaining;
    }

    method ReadRegion() returns (region: seq<u8>)
      requires Valid()
      ensures region == Contents()
    {
      return buffer[readPos..writePos];
    }
  }

  class PacketSession {
    const recvBuf: RecvBuffer
    var closed: bool
    var delivered: seq<Packet>  // calls of OnPacket

    ghost predicate Valid()
      reads this, recvBuf
    {
      recvBuf.Valid() && recvBuf.buffer.Length == CAPACITY
    }

    constructor ()
      ensures Valid() && fresh(recvBuf) && fresh(recvBuf.buffer) && !closed && delivered == []
      ensures recvBuf.Contents() == []
    {
      recvBuf := new RecvBuffer(CAPACITY);
      closed, delivered := false, [];
    }

    /** The session calls this only while it is not disconnecting. */
    method OnRecv(data: seq<u8>)
      requires Valid() && !closed
      modifies this, recvBuf, recvBuf.buffer
      ensures Valid()
      ensures var r := Receive(old(recvBuf.Contents()), false, data);
              recvBuf.Contents() == r.rest && closed == r.closed && delivered == old(delivered) + r.packets
      ensures |old(recvBuf.Contents())| + |data| > 65536 ==>
                closed && delivered == old(delivered) && recvBuf.Contents() == old(recvBuf.Contents())
    {
      var ok := recvBuf.Append(data);
      if !ok {
        closed := true;
        return;
      }
      DeliverAll();
    }

    method DeliverAll()
      requires Valid() && !closed
      modifies this, recvBuf
      ensures Valid()
      ensures var r := Parse(old(recvBuf.Contents()));
              recvBuf.Contents() == r.rest && closed == r.closed && delivered == old(delivered) + r.packets
    {
      ghost var whole, packets: seq<Packet> := Parse(recvBuf.Contents()), [];
      NoPackets(whole);
      while recvBuf.writePos - recvBuf.readPos >= HEADER_SIZE
        invariant Valid() && !closed && delivered == old(delivered) + packets
        invariant whole == Prefixed(packets, Parse(recvBuf.Contents()))
        decreases |recvBuf.Contents()|
      {
        var region := recvBuf.ReadRegion();
        var size := ReadLE16(region);
        if size < HEADER_SIZE || size > MAX_PACKET {
          closed := true;
          return;
        }
        if |region| < size {
          return;
        }
        var p := Packet(ReadLE16(region[2..]), region[HEADER_SIZE..size]);
        delivered := delivered + [p];
        recvBuf.OnRead(size);
        PrefixedTwice(packets, [p], Parse(region[size..]));
        packets := packets + [p];
      }
    }
  }

  /** Writes the header and the serialized payload into a buffer; `hasRoom` says whether the pool had room for it. */
  method BuildPacket(p: Packet, hasRoom: bool) returns (buf: Option<array<u8>>)
    requires p.id < 0x1_0000
    ensures buf.Some? <==> hasRoom
    ensures buf.Some? ==> fresh(buf.value) && buf.value[..] == Build(p)
  {
    var total := HEADER_SIZE + |p.payload|;
    if !hasRoom {
      return None;
    }
    var w := new u8[total](_ => 0);
    var size := total % 0x1_0000;
    w[0], w[1] := size % 256, size / 256 % 256;
    w[2], w[3] := p.id % 256, p.id / 256 % 256;
    for i := 0 to |p.payload|
      invariant w[..4] == WriteLE16(size) + WriteLE16(p.id) && w[4..4 + i] == p.payload[..i]
    {
      w[4 + i] := p.payload[i];
    }
    assert p.payload[..|p.payload|] == p.payload && w[..] == w[..4] + w[4..];
    return Some(w);
  }
}
