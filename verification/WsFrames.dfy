/**
 * WebSocket frames (sections 5.2 to 5.4 of RFC 6455): the incremental parser as functions on its state, a frame
 * format and its reference meaning. Like the parser, the format leaves reserved bits and the length form free.
 */
module WsFrames {
  import opened Bytes
  import opened Division
  import opened Options

  const MAX_PAYLOAD := 16 * 1024 * 1024
  const CONTINUATION := 0
  const CLOSE := 8

  datatype Message = Message(opcode: nat, payload: seq<u8>)

  // ---------------------------------------------------------------- parser state

  datatype Head = Head(fin: bool, opcode: nat, masked: bool)

  /** Where the parser is in a frame, with what it knows of the frame. */
  datatype Phase =
    | Header
    | Length16(head: Head)
    | Length64(head: Head)
    | MaskKey(head: Head, length: nat)
    | Payload(head: Head, length: nat, key: seq<u8>, got: seq<u8>)

  /** A fragmented message in progress. */
  datatype Fragments = Fragments(active: bool, opcode: nat, buffer: seq<u8>)

  datatype Parser = Parser(phase: Phase, fragments: Fragments, error: bool)

  const NEW_PARSER := Parser(Header, Fragments(false, CONTINUATION, []), false)

  predicate Sane(p: Parser) {
    match p.phase
    case MaskKey(h, _) => h.masked
    case Payload(h, length, key, got) => |got| <= length && |key| == 4 && (length > 0 ==> |got| < length)
    case _ => true
  }

  // ---------------------------------------------------------------- complete frames

  function Unmasked(payload: seq<u8>, key: seq<u8>): (r: seq<u8>)
    requires |key| == 4
    ensures |r| == |payload|
  {
    seq(|payload|, i requires 0 <= i < |payload| => Xor(payload[i], key[i % 4]))
  }

  /** Bit by bit, `payload` is `wire` with the ones of the key, repeated every four bytes, flipped. */
  ghost predicate FlippedBy(payload: seq<u8>, wire: seq<u8>, key: seq<u8>)
    requires |key| == 4
  {
    && |payload| == |wire|
    && forall i, k :: 0 <= i < |wire| && 0 <= k < 8 ==> (Bit(payload[i], k) <==> Bit(wire[i], k) != Bit(key[i % 4], k))
  }

  /** That says all about it. */
  lemma FlippedByOne(payload: seq<u8>, other: seq<u8>, wire: seq<u8>, key: seq<u8>)
    requires |key| == 4 && FlippedBy(payload, wire, key) && FlippedBy(other, wire, key)
    ensures payload == other
  {
    forall i | 0 <= i < |wire| ensures payload[i] == other[i] {
      assert Pow2(8) == 256;
      BitsDetermine(payload[i], other[i], 8);
    }
  }

  lemma UnmaskedBitwise(wire: seq<u8>, key: seq<u8>)
    requires |key| == 4
    ensures FlippedBy(Unmasked(wire, key), wire, key)
  {
    forall i, k | 0 <= i < |wire| && 0 <= k < 8
      ensures Bit(Unmasked(wire, key)[i], k) <==> Bit(wire[i], k) != Bit(key[i % 4], k)
    {
      XorBitwise(wire[i], key[i % 4], k);
    }
  }

  lemma UnmaskedTwice(payload: seq<u8>, key: seq<u8>)
    requires |key| == 4
    ensures Unmasked(Unmasked(payload, key), key) == payload
  {
    forall i | 0 <= i < |payload| ensures Unmasked(Unmasked(payload, key), key)[i] == payload[i] {
      XorTwice(payload[i], key[i % 4]);
    }
  }

  datatype Delivery = Delivery(fragments: Fragments, messages: seq<Message>, error: bool)

  /** What a complete frame does: control frames and whole messages are emitted, fragments are collected. */
  function Deliver(f: Fragments, fin: bool, opcode: nat, payload: seq<u8>): Delivery {
    if opcode >= CLOSE then Delivery(f, [Message(opcode, payload)], false)
    else if opcode != CONTINUATION then
      if fin then Delivery(f, [Message(opcode, payload)], false)
      else Delivery(Fragments(true, opcode, payload), [], false)
    else if !f.active then Delivery(f, [], true)
    else if fin then Delivery(Fragments(false, f.opcode, []), [Message(f.opcode, f.buffer + payload)], false)
    else Delivery(f.(buffer := f.buffer + payload), [], false)
  }

  // ---------------------------------------------------------------- one turn of the parse loop

  datatype Turn = Turn(parser: Parser, used: nat, messages: seq<Message>)

  function Finish(p: Parser, head: Head, payload: seq<u8>, used: nat): Turn {
    var d := Deliver(p.fragments, head.fin, head.opcode, payload);
    Turn(Parser(Header, d.fragments, d.error), used, d.messages)
  }

  function AfterLength(p: Parser, head: Head, length: nat, used: nat): Turn {
    Turn(p.(phase := if head.masked then MaskKey(head, length) else Payload(head, length, [0, 0, 0, 0], [])), used, [])
  }

  function HeadOf(b0: u8, b1: u8): Head { Head(b0 >= 128, b0 % 16, b1 >= 128) }

  /** None: not enough bytes. */
  function Iterate(p: Parser, buf: seq<u8>): (t: Option<Turn>)
    requires buf != [] && !p.error && Sane(p)
    ensures t.Some? ==> t.value.used <= |buf| && Sane(t.value.parser)
    ensures t.Some? && t.value.used == 0 ==> p.phase.Payload? && t.value.parser.phase.Header?
  {
    match p.phase
    case Header =>
      if |buf| < 2 then None
      else
        var head, len7 := HeadOf(buf[0], buf[1]), buf[1] % 128;
        if len7 == 126 then Some(Turn(p.(phase := Length16(head)), 2, []))
        else if len7 == 127 then Some(Turn(p.(phase := Length64(head)), 2, []))
        else if len7 == 0 && !head.masked then Some(Finish(p, head, [], 2))
        else Some(AfterLength(p, head, len7, 2))
    case Length16(head) => if |buf| < 2 then None else Some(AfterLength(p, head, FromBigEndian(buf[..2]), 2))
    case Length64(head) =>
      if |buf| < 8 then None
      else if FromBigEndian(buf[..8]) > MAX_PAYLOAD then Some(Turn(p.(error := true), 8, []))
      else Some(AfterLength(p, head, FromBigEndian(buf[..8]), 8))
    case MaskKey(head, length) =>
      if |buf| < 4 then None
      else if length == 0 then Some(Finish(p, head, [], 4))
      else Some(Turn(p.(phase := Payload(head, length, buf[..4], [])), 4, []))
    case Payload(head, length, key, got) =>
      var n := if length - |got| <= |buf| then length - |got| else |buf|;
      var all := got + buf[..n];
      if |all| == length then Some(Finish(p, head, if head.masked then Unmasked(all, key) else all, n))
      else Some(Turn(p.(phase := Payload(head, length, key, all)), n, []))
  }

  // ---------------------------------------------------------------- the parse loop and Feed

  datatype Run = Run(parser: Parser, buffer: seq<u8>, messages: seq<Message>)

  function Drive(p: Parser, buf: seq<u8>): (r: Run)
    requires Sane(p)
    ensures Sane(r.parser)
    decreases |buf|, if p.phase.Payload? then 1 else 0
  {
    if buf == [] || p.error then Run(p, buf, [])
    else
      var t := Iterate(p, buf);
      if t.None? then Run(p, buf, [])
      else
        var r := Drive(t.value.parser, buf[t.value.used..]);
        r.(messages := t.value.messages + r.messages)
  }

  /** Feeding bytes to a parser that has `buf` left over; after an error, input is ignored. */
  function Feed(p: Parser, buf: seq<u8>, data: seq<u8>): (r: Run)
    requires Sane(p)
    ensures Sane(r.parser)
  {
    if p.error then Run(p, buf, []) else Drive(p, buf + data)
  }

  function FeedAll(p: Parser, buf: seq<u8>, chunks: seq<seq<u8>>): (r: Run)
    requires Sane(p)
    ensures Sane(r.parser)
    decreases |chunks|
  {
    if chunks == [] then Run(p, buf, [])
    else
      var r := Feed(p, buf, chunks[0]);
      var r' := FeedAll(r.parser, r.buffer, chunks[1..]);
      r'.(messages := r.messages + r'.messages)
  }

  // ---------------------------------------------------------------- chunking

  /** More bytes do not change a turn, unless it is waiting for more payload. */
  lemma IterateMore(p: Parser, a: seq<u8>, b: seq<u8>)
    requires a != [] && !p.error && Sane(p)
    requires Iterate(p, a).Some? && (p.phase.Payload? ==> |p.phase.got| + |a| >= p.phase.length)
    ensures Iterate(p, a + b) == Iterate(p, a)
  {
    assert forall k :: 0 <= k <= |a| ==> (a + b)[..k] == a[..k];
  }

  /** A turn over two pieces of payload is the turn over the second, after the first has been stored. */
  lemma PayloadTurn(p: Parser, p': Parser, a: seq<u8>, b: seq<u8>)
    requires a != [] && b != [] && !p.error && Sane(p) && p.phase.Payload? && |p.phase.got| + |a| < p.phase.length
    requires p' == p.(phase := p.phase.(got := p.phase.got + a))
    ensures Sane(p') && Iterate(p', b).Some?
    ensures var t := Iterate(p', b).value; Iterate(p, a + b) == Some(t.(used := |a| + t.used))
  {
    var ph := p.phase;
    var n := if ph.length - |ph.got| - |a| <= |b| then ph.length - |ph.got| - |a| else |b|;
    assert (a + b)[..|a| + n] == a + b[..n];
    assert ph.got + (a + b[..n]) == ph.got + a + b[..n];
  }

  /** Payload bytes that do not complete the frame are stored. */
  lemma PayloadStored(p: Parser, p': Parser, a: seq<u8>)
    requires a != [] && !p.error && Sane(p) && p.phase.Payload? && |p.phase.got| + |a| < p.phase.length
    requires p' == p.(phase := p.phase.(got := p.phase.got + a))
    ensures Drive(p, a) == Run(p', [], [])
  {
    assert a[..|a|] == a && a[|a|..] == [];
    assert Iterate(p, a) == Some(Turn(p', |a|, []));
  }

  /** Payload bytes may come in one piece or in two. */
  lemma PayloadInTwo(p: Parser, p': Parser, a: seq<u8>, b: seq<u8>)
    requires a != [] && b != [] && !p.error && Sane(p) && p.phase.Payload? && |p.phase.got| + |a| < p.phase.length
    requires p' == p.(phase := p.phase.(got := p.phase.got + a))
    ensures Sane(p') && Drive(p, a + b) == Drive(p', b)
  {
    PayloadTurn(p, p', a, b);
    var t := Iterate(p', b).value;
    DriveTurn(p', b, t, b[t.used..]);
    DriveTurn(p, a + b, t.(used := |a| + t.used), b[t.used..]);
  }

  function Prefixed(messages: seq<Message>, r: Run): Run { r.(messages := messages + r.messages) }

  /**
   * Driving the parser over two pieces, one after the other, is driving it over both at once, as long as the first
   * piece raises no error; if it does, the second piece changes nothing but what is left in the buffer.
   */
  ghost predicate Splits(p: Parser, a: seq<u8>, b: seq<u8>)
    requires Sane(p)
  {
    var r := Drive(p, a);
    Drive(p, a + b) ==
      if r.parser.error then Run(r.parser, r.buffer + b, r.messages)
      else Prefixed(r.messages, Drive(r.parser, r.buffer + b))
  }

  lemma DriveTurn(p: Parser, buf: seq<u8>, t: Turn, rest: seq<u8>)
    requires Sane(p) && !p.error && buf != [] && Iterate(p, buf) == Some(t) && buf[t.used..] == rest
    ensures Drive(p, buf) == Prefixed(t.messages, Drive(t.parser, rest))
  {
  }

  lemma PrefixedNone(r: Run)
    ensures Prefixed([], r) == r
  {
    assert [] + r.messages == r.messages;
  }

  lemma PrefixedTwice(first: seq<Message>, second: seq<Message>, r: Run)
    ensures Prefixed(first, Prefixed(second, r)) == Prefixed(first + second, r)
  {
    assert first + (second + r.messages) == first + second + r.messages;
  }

  lemma SettledSplits(p: Parser, a: seq<u8>, b: seq<u8>)
    requires Sane(p) && Drive(p, a) == Run(p, a, [])
    ensures Splits(p, a, b)
  {
    PrefixedNone(Drive(p, a + b));
  }

  lemma PayloadSplits(p: Parser, a: seq<u8>, b: seq<u8>)
    requires a != [] && !p.error && Sane(p) && p.phase.Payload? && |p.phase.got| + |a| < p.phase.length
    ensures Splits(p, a, b)
  {
    if b == [] {
      DriveSettles(p, a);
      assert a + b == a && Drive(p, a).buffer + b == Drive(p, a).buffer;
      var r := Drive(p, a);
      assert r.messages + [] == r.messages;
    } else {
      var p' := p.(phase := p.phase.(got := p.phase.got + a));
      PayloadStored(p, p', a);
      PayloadInTwo(p, p', a, b);
      assert [] + b == b;
      PrefixedNone(Drive(Drive(p, a).parser, b));
    }
  }

  lemma {:induction false} DriveSplit(p: Parser, a: seq<u8>, b: seq<u8>)
    requires Sane(p)
    ensures Splits(p, a, b)
    decreases |a|, if p.phase.Payload? then 1 else 0
  {
    if a == [] || p.error || Iterate(p, a).None? {
      SettledSplits(p, a, b);
    } else if p.phase.Payload? && |p.phase.got| + |a| < p.phase.length {
      PayloadSplits(p, a, b);
    } else {
      var t := Iterate(p, a).value;
      IterateMore(p, a, b);
      DriveTurn(p, a, t, a[t.used..]);
      DriveTurn(p, a + b, t, a[t.used..] + b);
      DriveSplit(t.parser, a[t.used..], b);
      var r := Drive(t.parser, a[t.used..]);
      PrefixedTwice(t.messages, r.messages, Drive(r.parser, r.buffer + b));
    }
  }

  /** Feeding two pieces is feeding both at once. */
  lemma FeedInTwo(p: Parser, buf: seq<u8>, a: seq<u8>, b: seq<u8>)
    requires Sane(p)
    ensures var r := Feed(p, buf, a);
            var once := Feed(p, buf, a + b);
            && (r.parser.error ==> once.parser.error && once.messages == r.messages)
            && (!r.parser.error ==> once == Prefixed(r.messages, Feed(r.parser, r.buffer, b)))
  {
    if !p.error {
      DriveSplit(p, buf + a, b);
      assert buf + a + b == buf + (a + b);
    }
  }

  lemma {:induction false} NothingAfterError(p: Parser, buf: seq<u8>, chunks: seq<seq<u8>>)
    requires Sane(p) && p.error
    ensures FeedAll(p, buf, chunks) == Run(p, buf, [])
    decreases |chunks|
  {
    if chunks != [] { NothingAfterError(p, buf, chunks[1..]); }
  }

  /**
   * However a byte stream is cut into pieces, the same messages come out in the same order, with the same error flag.
   */
  lemma {:induction false} AnyChunking(p: Parser, buf: seq<u8>, chunks: seq<seq<u8>>)
    requires Sane(p) && Drive(p, buf) == Run(p, buf, [])
    ensures var r, once := FeedAll(p, buf, chunks), Feed(p, buf, Concat(chunks));
            && r.messages == once.messages && r.parser.error == once.parser.error
            && (!r.parser.error ==> r.parser == once.parser && r.buffer == once.buffer)
    decreases |chunks|
  {
    if chunks == [] {
      assert buf + [] == buf;
    } else {
      var r := Feed(p, buf, chunks[0]);
      FeedInTwo(p, buf, chunks[0], Concat(chunks[1..]));
      if r.parser.error {
        NothingAfterError(r.parser, r.buffer, chunks[1..]);
      } else {
        DriveSettles(p, buf + chunks[0]);
        AnyChunking(r.parser, r.buffer, chunks[1..]);
      }
    }
  }

  /** From the start of a connection. */
  lemma ChunkingIndependent(chunks: seq<seq<u8>>)
    ensures var r, once := FeedAll(NEW_PARSER, [], chunks), Feed(NEW_PARSER, [], Concat(chunks));
            r.messages == once.messages && r.parser.error == once.parser.error
  {
    AnyChunking(NEW_PARSER, [], chunks);
  }

  /** What is left after driving cannot be driven further. */
  lemma {:induction false} DriveSettles(p: Parser, buf: seq<u8>)
    requires Sane(p)
    ensures var r := Drive(p, buf); Drive(r.parser, r.buffer) == Run(r.parser, r.buffer, [])
    decreases |buf|, if p.phase.Payload? then 1 else 0
  {
    if buf != [] && !p.error && Iterate(p, buf).Some? {
      var t := Iterate(p, buf).value;
      DriveSettles(t.parser, buf[t.used..]);
    }
  }
}
