/** Streams of encoded WebSocket frames, and what the parser makes of them. */
module WsStreams {
  import opened Bytes
  import opened Options
  import opened WsFrames

  datatype LengthForm = Short | Medium | Long

  /** A frame as sent; a key means that the payload goes out masked. */
  datatype Frame = Frame(fin: bool, reserved: nat, opcode: nat, key: Option<seq<u8>>, form: LengthForm,
                         payload: seq<u8>)

  predicate Fits(form: LengthForm, length: nat) {
    match form
    case Short => length < 126
    case Medium => length < 0x1_0000
    case Long => length <= MAX_PAYLOAD
  }

  predicate WellFormed(f: Frame) {
    && f.reserved < 8 && f.opcode < 16 && (f.key.Some? ==> |f.key.value| == 4)
    && Fits(f.form, |f.payload|)
  }

  function Byte0(f: Frame): u8
    requires WellFormed(f)
  {
    (if f.fin then 128 else 0) + f.reserved * 16 + f.opcode
  }

  function Byte1(f: Frame): u8
    requires WellFormed(f)
  {
    (if f.key.Some? then 128 else 0) + match f.form case Short => |f.payload| case Medium => 126 case Long => 127
  }

  function Extended(f: Frame): seq<u8> {
    match f.form
    case Short => []
    case Medium => BigEndian(|f.payload|, 2)
    case Long => BigEndian(|f.payload|, 8)
  }

  /** Masking as the sender does it: each byte with the front byte of the key, which then goes to the back. */
  function Masked(payload: seq<u8>, key: seq<u8>): (wire: seq<u8>)
    requires |key| == 4
    ensures |wire| == |payload|
  {
    if payload == [] then [] else [Xor(payload[0], key[0])] + Masked(payload[1..], key[1..] + [key[0]])
  }

  lemma {:induction false} MaskedAt(payload: seq<u8>, key: seq<u8>, i: nat)
    requires |key| == 4 && i < |payload|
    ensures Masked(payload, key)[i] == Xor(payload[i], key[i % 4])
    decreases i
  {
    if i > 0 {
      MaskedAt(payload[1..], key[1..] + [key[0]], i - 1);
      RotatedAt(key, i);
    }
  }

  lemma RotatedAt(key: seq<u8>, i: nat)
    requires |key| == 4 && i > 0
    ensures (key[1..] + [key[0]])[(i - 1) % 4] == key[i % 4]
  {
    assert (i - 1) % 4 == if i % 4 == 0 then 3 else i % 4 - 1;
  }

  /** Unmasking undoes it. */
  lemma UnmaskMasked(payload: seq<u8>, key: seq<u8>)
    requires |key| == 4
    ensures Unmasked(Masked(payload, key), key) == payload
  {
    forall i | 0 <= i < |payload| ensures Unmasked(Masked(payload, key), key)[i] == payload[i] {
      MaskedAt(payload, key, i);
      XorTwice(payload[i], key[i % 4]);
    }
  }

  lemma MaskUnmasked(wire: seq<u8>, key: seq<u8>)
    requires |key| == 4
    ensures Masked(Unmasked(wire, key), key) == wire
  {
    forall i | 0 <= i < |wire| ensures Masked(Unmasked(wire, key), key)[i] == wire[i] {
      MaskedAt(Unmasked(wire, key), key, i);
      XorTwice(wire[i], key[i % 4]);
    }
  }

  function Body(f: Frame): seq<u8>
    requires WellFormed(f)
  {
    if f.key.Some? then f.key.value + Masked(f.payload, f.key.value) else f.payload
  }

  function Encode(f: Frame): seq<u8>
    requires WellFormed(f)
  {
    [Byte0(f), Byte1(f)] + Extended(f) + Body(f)
  }

  function EncodeAll(fs: seq<Frame>): seq<u8>
    requires forall i :: 0 <= i < |fs| ==> WellFormed(fs[i])
  {
    if fs == [] then [] else Encode(fs[0]) + EncodeAll(fs[1..])
  }

  /** The reference meaning of a sequence of frames: deliver them in turn, stop at an error. */
  function Deliveries(g: Fragments, fs: seq<Frame>): Delivery
    decreases |fs|
  {
    if fs == [] then Delivery(g, [], false)
    else
      var d := Deliver(g, fs[0].fin, fs[0].opcode, fs[0].payload);
      if d.error then d
      else
        var rest := Deliveries(d.fragments, fs[1..]);
        rest.(messages := d.messages + rest.messages)
  }

  /** An empty unmasked frame whose length is nevertheless sent in extended form. */
  predicate Delayed(f: Frame) { f.payload == [] && f.key.None? && !f.form.Short? }

  // ---------------------------------------------------------------- one frame, phase by phase

  function AtHeader(g: Fragments): Parser { Parser(Header, g, false) }

  function HeadOfFrame(f: Frame): Head { Head(f.fin, f.opcode, f.key.Some?) }

  /** What happens once the whole frame is in. */
  function Delivered(g: Fragments, f: Frame, rest: seq<u8>): Run {
    var d := Deliver(g, f.fin, f.opcode, f.payload);
    Prefixed(d.messages, Drive(Parser(Header, d.fragments, d.error), rest))
  }

  lemma QuietTurn(p: Parser, buf: seq<u8>, p': Parser, used: nat, rest: seq<u8>)
    requires Sane(p) && Sane(p') && !p.error && buf != [] && used <= |buf|
    requires Iterate(p, buf) == Some(Turn(p', used, [])) && buf[used..] == rest
    ensures Drive(p, buf) == Drive(p', rest)
  {
  }

  /** From the payload phase on. */
  lemma PayloadParsed(g: Fragments, f: Frame, key: seq<u8>, wire: seq<u8>, rest: seq<u8>)
    requires WellFormed(f) && |key| == 4 && (f.key.Some? ==> key == f.key.value)
    requires wire == (if f.key.Some? then Masked(f.payload, key) else f.payload)
    requires wire + rest != []
    ensures Drive(Parser(Payload(HeadOfFrame(f), |wire|, key, []), g, false), wire + rest) == Delivered(g, f, rest)
  {
    var p := Parser(Payload(HeadOfFrame(f), |wire|, key, []), g, false);
    var buf := wire + rest;
    assert buf[..|wire|] == wire && [] + wire == wire && buf[|wire|..] == rest;
    if f.key.Some? { UnmaskMasked(f.payload, key); }
    DriveTurn(p, buf, Finish(p, HeadOfFrame(f), f.payload, |wire|), rest);
  }

  /** From the end of the length on. */
  lemma BodyParsed(g: Fragments, f: Frame, rest: seq<u8>)
    requires WellFormed(f) && (Body(f) + rest != [])
    ensures var t := AfterLength(AtHeader(g), HeadOfFrame(f), |f.payload|, 0);
            Drive(t.parser, Body(f) + rest) == Delivered(g, f, rest)
  {
    var h := HeadOfFrame(f);
    if f.key.None? {
      PayloadParsed(g, f, [0, 0, 0, 0], f.payload, rest);
    } else {
      var key, wire := f.key.value, Masked(f.payload, f.key.value);
      var p, buf := Parser(MaskKey(h, |f.payload|), g, false), Body(f) + rest;
      assert buf[..4] == key && buf[4..] == wire + rest;
      if f.payload == [] {
        assert wire + rest == rest;
        DriveTurn(p, buf, Finish(p, h, [], 4), rest);
      } else {
        QuietTurn(p, buf, p.(phase := Payload(h, |f.payload|, key, [])), 4, wire + rest);
        PayloadParsed(g, f, key, wire, rest);
      }
    }
  }

  lemma HeadRead(f: Frame)
    requires WellFormed(f)
    ensures HeadOf(Byte0(f), Byte1(f)) == HeadOfFrame(f)
    ensures Byte1(f) % 128 == match f.form case Short => |f.payload| case Medium => 126 case Long => 127
  {
  }

  /** The extended length is read back. */
  lemma LengthParsed(g: Fragments, f: Frame, rest: seq<u8>)
    requires WellFormed(f) && !f.form.Short?
    ensures var p := Parser(if f.form.Medium? then Length16(HeadOfFrame(f)) else Length64(HeadOfFrame(f)), g, false);
            var t := AfterLength(AtHeader(g), HeadOfFrame(f), |f.payload|, 0);
            Drive(p, Extended(f) + (Body(f) + rest)) == Drive(t.parser, Body(f) + rest)
  {
    var p := Parser(if f.form.Medium? then Length16(HeadOfFrame(f)) else Length64(HeadOfFrame(f)), g, false);
    var k := if f.form.Medium? then 2 else 8;
    var buf, tail := Extended(f) + (Body(f) + rest), Body(f) + rest;
    assert buf[..k] == Extended(f) && buf[k..] == tail;
    assert Pow256(2) == 0x1_0000 && Pow256(8) > MAX_PAYLOAD;
    BigEndianRoundTrip(|f.payload|, k);
    var t := AfterLength(p, HeadOfFrame(f), |f.payload|, k);
    QuietTurn(p, buf, t.parser, k, tail);
  }

  lemma EncodedIs(f: Frame, rest: seq<u8>, tail: seq<u8>)
    requires WellFormed(f) && tail == Extended(f) + (Body(f) + rest)
    ensures Encode(f) + rest == [Byte0(f), Byte1(f)] + tail && ([Byte0(f), Byte1(f)] + tail)[2..] == tail
  {
    Regrouped([Byte0(f), Byte1(f)] + Extended(f), Body(f), rest);
    Regrouped([Byte0(f), Byte1(f)], Extended(f), Body(f) + rest);
  }

  lemma Regrouped(a: seq<u8>, b: seq<u8>, c: seq<u8>)
    ensures a + (b + c) == a + b + c
  {
  }

  lemma ShortParsed(g: Fragments, f: Frame, rest: seq<u8>)
    requires WellFormed(f) && f.form.Short?
    ensures Drive(AtHeader(g), [Byte0(f), Byte1(f)] + (Body(f) + rest)) == Delivered(g, f, rest)
  {
    var p, tail, h := AtHeader(g), Body(f) + rest, HeadOfFrame(f);
    var buf := [Byte0(f), Byte1(f)] + tail;
    HeadRead(f);
    assert buf[2..] == tail;
    if f.payload == [] && f.key.None? {
      assert tail == rest;
      DriveTurn(p, buf, Finish(p, h, [], 2), rest);
    } else {
      QuietTurn(p, buf, AfterLength(p, h, |f.payload|, 2).parser, 2, tail);
      BodyParsed(g, f, rest);
    }
  }

  /** One frame, masked or not, in any of the three length forms, in front of anything. */
  lemma FrameParsed(g: Fragments, f: Frame, rest: seq<u8>)
    requires WellFormed(f) && (Delayed(f) ==> rest != [])
    ensures Drive(AtHeader(g), Encode(f) + rest) == Delivered(g, f, rest)
  {
    var p, h, tail := AtHeader(g), HeadOfFrame(f), Extended(f) + (Body(f) + rest);
    EncodedIs(f, rest, tail);
    if f.form.Short? {
      assert tail == Body(f) + rest;
      ShortParsed(g, f, rest);
    } else {
      var buf := [Byte0(f), Byte1(f)] + tail;
      HeadRead(f);
      QuietTurn(p, buf, p.(phase := if f.form.Medium? then Length16(h) else Length64(h)), 2, tail);
      LengthParsed(g, f, rest);
      BodyParsed(g, f, rest);
    }
  }

  /**
   * Over the bytes as they arrive: whatever the key and the masked bytes, the frame is delivered with the payload whose
   * every bit is the wire's, flipped where the key, repeated every four bytes, has a one.
   */
  lemma MaskedFrameParsed(g: Fragments, f: Frame, wire: seq<u8>, rest: seq<u8>) returns (payload: seq<u8>)
    requires WellFormed(f) && f.key.Some? && |wire| == |f.payload|
    ensures FlippedBy(payload, wire, f.key.value)
    ensures Drive(AtHeader(g), [Byte0(f), Byte1(f)] + Extended(f) + f.key.value + wire + rest) ==
            Delivered(g, f.(payload := payload), rest)
  {
    payload := Unmasked(wire, f.key.value);
    UnmaskedBitwise(wire, f.key.value);
    MaskUnmasked(wire, f.key.value);
    SameHeader(f, payload);
    FrameParsed(g, f.(payload := payload), rest);
  }

  /** The header tells of the payload only its length. */
  lemma SameHeader(f: Frame, payload: seq<u8>)
    requires WellFormed(f) && f.key.Some? && |payload| == |f.payload|
    ensures WellFormed(f.(payload := payload))
    ensures Encode(f.(payload := payload)) ==
            [Byte0(f), Byte1(f)] + Extended(f) + f.key.value + Masked(payload, f.key.value)
  {
    var f' := f.(payload := payload);
    SameLength(f, f');
    Regrouped([Byte0(f'), Byte1(f')] + Extended(f'), f.key.value, Masked(payload, f.key.value));
  }

  lemma SameLength(f: Frame, f': Frame)
    requires WellFormed(f) && |f.payload| == |f'.payload| && f' == f.(payload := f'.payload)
    ensures WellFormed(f') && Byte0(f') == Byte0(f) && Byte1(f') == Byte1(f) && Extended(f') == Extended(f)
  {
  }

  /** A continuation with no message in progress is an error, and nothing is delivered then or later. */
  lemma StrayContinuation(g: Fragments, f: Frame, rest: seq<u8>)
    requires WellFormed(f) && f.opcode == 0 && !g.active && (Delayed(f) ==> rest != [])
    ensures var r := Drive(AtHeader(g), Encode(f) + rest); r.parser.error && r.messages == []
  {
    FrameParsed(g, f, rest);
  }

  // ---------------------------------------------------------------- streams of frames

  /** Parsing a stream of frames, in front of anything, gives the messages and the error flag that the frames mean. */
  lemma {:induction false} StreamParsed(g: Fragments, fs: seq<Frame>, rest: seq<u8>)
    requires forall i :: 0 <= i < |fs| ==> WellFormed(fs[i])
    requires fs != [] && Delayed(fs[|fs| - 1]) ==> rest != []
    ensures var r, d := Drive(AtHeader(g), EncodeAll(fs) + rest), Deliveries(g, fs);
            if d.error then r.parser.error && r.messages == d.messages
            else r == Prefixed(d.messages, Drive(AtHeader(d.fragments), rest))
    decreases |fs|
  {
    if fs == [] {
      assert EncodeAll(fs) + rest == rest;
      PrefixedNone(Drive(AtHeader(g), rest));
    } else {
      var tail := EncodeAll(fs[1..]) + rest;
      assert EncodeAll(fs) + rest == Encode(fs[0]) + tail;
      FrameParsed(g, fs[0], tail);
      var d := Deliver(g, fs[0].fin, fs[0].opcode, fs[0].payload);
      if !d.error {
        StreamParsed(d.fragments, fs[1..], rest);
        var after := Deliveries(d.fragments, fs[1..]);
        PrefixedTwice(d.messages, after.messages, Drive(AtHeader(after.fragments), rest));
      }
    }
  }

  /** A delayed frame is not delivered by its own bytes; the next byte, whatever it is, delivers it. */
  lemma DeliveredAtOnceIff(g: Fragments, f: Frame)
    requires WellFormed(f)
    ensures Drive(AtHeader(g), Encode(f)) == Delivered(g, f, []) <==> !Delayed(f)
    ensures forall b: u8 :: Drive(AtHeader(g), Encode(f) + [b]) == Delivered(g, f, [b])
  {
    assert Encode(f) + [] == Encode(f);
    forall b: u8 ensures Drive(AtHeader(g), Encode(f) + [b]) == Delivered(g, f, [b]) {
      FrameParsed(g, f, [b]);
    }
    if Delayed(f) {
      StillWaiting(g, f);
    } else {
      FrameParsed(g, f, []);
    }
  }

  lemma StillWaiting(g: Fragments, f: Frame)
    requires WellFormed(f) && Delayed(f)
    ensures Drive(AtHeader(g), Encode(f)) == Run(AfterLength(AtHeader(g), HeadOfFrame(f), 0, 0).parser, [], [])
  {
    var p, h, buf := AtHeader(g), HeadOfFrame(f), Encode(f);
    HeadRead(f);
    var tail := Extended(f) + (Body(f) + []);
    assert buf[2..] == tail;
    QuietTurn(p, buf, p.(phase := if f.form.Medium? then Length16(h) else Length64(h)), 2, tail);
    LengthParsed(g, f, []);
    assert Body(f) + [] == [];
  }

  /** A length over the limit is an error, whatever the header says and whatever follows. */
  lemma OversizeRejected(g: Fragments, b0: u8, b1: u8, length: nat, rest: seq<u8>)
    requires b1 % 128 == 127 && 0x100_0000 < length < Pow256(8)
    ensures var r := Drive(AtHeader(g), [b0, b1] + BigEndian(length, 8) + rest); r.parser.error && r.messages == []
  {
    var p, buf, tail := AtHeader(g), [b0, b1] + BigEndian(length, 8) + rest, BigEndian(length, 8) + rest;
    var p' := p.(phase := Length64(HeadOf(b0, b1)));
    assert buf[2..] == tail;
    QuietTurn(p, buf, p', 2, tail);
    assert tail[..8] == BigEndian(length, 8);
    BigEndianRoundTrip(length, 8);
    DriveTurn(p', tail, Turn(p'.(error := true), 8, []), tail[8..]);
  }

  // ---------------------------------------------------------------- messages

  function WholeMessages(fs: seq<Frame>): seq<Message> {
    if fs == [] then [] else [Message(fs[0].opcode, fs[0].payload)] + WholeMessages(fs[1..])
  }

  /** Final frames that are not continuations are one message each, in order, and leave fragments alone. */
  lemma {:induction false} WholeMessagesDelivered(g: Fragments, fs: seq<Frame>)
    requires forall i :: 0 <= i < |fs| ==> fs[i].fin && fs[i].opcode != CONTINUATION
    ensures Deliveries(g, fs) == Delivery(g, WholeMessages(fs), false)
    decreases |fs|
  {
    if fs != [] {
      WholeMessagesDelivered(g, fs[1..]);
    }
  }

  /** The frame that the server builds: final, unmasked, in the shortest length form. */
  function Built(opcode: nat, payload: seq<u8>): (f: Frame)
    ensures opcode < 16 && |payload| <= MAX_PAYLOAD ==> WellFormed(f) && !Delayed(f)
  {
    var form := if |payload| < 126 then Short else if |payload| < 0x1_0000 then Medium else Long;
    Frame(true, 0, opcode, None, form, payload)
  }

  predicate Sendable(m: Message) { 0 < m.opcode < 16 && |m.payload| <= MAX_PAYLOAD }

  function BuiltAll(ms: seq<Message>): (fs: seq<Frame>)
    requires forall i :: 0 <= i < |ms| ==> Sendable(ms[i])
    ensures |fs| == |ms|
    ensures forall i :: 0 <= i < |fs| ==> WellFormed(fs[i]) && !Delayed(fs[i]) && fs[i].fin && fs[i].opcode > 0
  {
    if ms == [] then []
    else
      var f := Built(ms[0].opcode, ms[0].payload);
      assert Sendable(ms[0]);
      [f] + BuiltAll(ms[1..])
  }

  /** The bytes that the server builds, whatever the size of the payload. */
  function BuiltBytes(opcode: nat, payload: seq<u8>): seq<u8>
    requires opcode < 16
  {
    var n := |payload|;
    [128 + opcode, if n < 126 then n else if n < 0x1_0000 then 126 else 127]
    + (if n < 126 then [] else if n < 0x1_0000 then BigEndian(n, 2) else BigEndian(n, 8))
    + payload
  }

  function BuiltStream(ms: seq<Message>): seq<u8>
    requires forall i :: 0 <= i < |ms| ==> Sendable(ms[i])
  {
    if ms == [] then []
    else
      assert Sendable(ms[0]);
      BuiltBytes(ms[0].opcode, ms[0].payload) + BuiltStream(ms[1..])
  }

  /** What the server builds is the encoding of a final, unmasked frame in the shortest length form. */
  lemma BuiltIsEncoded(m: Message)
    requires Sendable(m)
    ensures BuiltBytes(m.opcode, m.payload) == Encode(Built(m.opcode, m.payload))
  {
  }

  lemma {:induction false} BuiltStreamEncoded(ms: seq<Message>)
    requires forall i :: 0 <= i < |ms| ==> Sendable(ms[i])
    ensures BuiltStream(ms) == EncodeAll(BuiltAll(ms)) && WholeMessages(BuiltAll(ms)) == ms
  {
    if ms != [] {
      BuiltIsEncoded(ms[0]);
      BuiltStreamEncoded(ms[1..]);
      assert ms == [ms[0]] + ms[1..];
    }
  }

  /** Parsing any concatenation of built frames gives back exactly the opcodes and payloads. */
  lemma BuildRoundTrip(ms: seq<Message>)
    requires forall i :: 0 <= i < |ms| ==> Sendable(ms[i])
    ensures Drive(NEW_PARSER, BuiltStream(ms)) == Run(NEW_PARSER, [], ms)
  {
    BuiltStreamEncoded(ms);
    WholeStreamParsed(NEW_PARSER.fragments, BuiltAll(ms));
  }

  lemma WholeStreamParsed(g: Fragments, fs: seq<Frame>)
    requires forall i :: 0 <= i < |fs| ==> WellFormed(fs[i]) && fs[i].fin && fs[i].opcode != 0 && !Delayed(fs[i])
    ensures Drive(AtHeader(g), EncodeAll(fs)) == Run(AtHeader(g), [], WholeMessages(fs))
  {
    var all := EncodeAll(fs);
    StreamParsed(g, fs, []);
    WholeMessagesDelivered(g, fs);
    assert all + [] == all;
    NothingLeft(AtHeader(g), WholeMessages(fs));
  }

  lemma NothingLeft(p: Parser, messages: seq<Message>)
    requires Sane(p)
    ensures Prefixed(messages, Drive(p, [])) == Run(p, [], messages)
  {
    assert messages + [] == messages;
  }

  /** ... in whatever pieces the bytes arrive. */
  lemma BuildRoundTripChunked(ms: seq<Message>, chunks: seq<seq<u8>>)
    requires (forall i :: 0 <= i < |ms| ==> Sendable(ms[i])) && Concat(chunks) == BuiltStream(ms)
    ensures FeedAll(NEW_PARSER, [], chunks) == Run(NEW_PARSER, [], ms)
  {
    BuildRoundTrip(ms);
    AnyChunking(NEW_PARSER, [], chunks);
    assert [] + Concat(chunks) == Concat(chunks);
  }

  /** A built frame is read back exactly when its payload is at most 16 MiB. */
  lemma BuiltReadBackIff(m: Message)
    requires 0 < m.opcode < 16 && |m.payload| < Pow256(8)
    ensures Drive(NEW_PARSER, BuiltBytes(m.opcode, m.payload)) == Run(NEW_PARSER, [], [m]) <==>
            |m.payload| <= 0x100_0000
  {
    if |m.payload| <= MAX_PAYLOAD {
      BuildRoundTrip([m]);
      assert BuiltStream([m]) == BuiltBytes(m.opcode, m.payload);
    } else {
      OversizeRejected(NEW_PARSER.fragments, 128 + m.opcode, 127, |m.payload|, m.payload);
    }
  }

  // ---------------------------------------------------------------- fragments

  /** A frame that may come between the first and the last fragment: a control frame or a middle fragment. */
  predicate Between(f: Frame) { f.opcode >= CLOSE || (f.opcode == CONTINUATION && !f.fin) }

  function Controls(fs: seq<Frame>): seq<Message> {
    if fs == [] then []
    else if fs[0].opcode >= CLOSE then [Message(fs[0].opcode, fs[0].payload)] + Controls(fs[1..])
    else Controls(fs[1..])
  }

  function Pieces(fs: seq<Frame>): seq<u8> {
    if fs == [] then []
    else if fs[0].opcode >= CLOSE then Pieces(fs[1..])
    else fs[0].payload + Pieces(fs[1..])
  }

  lemma {:induction false} MiddleDelivered(g: Fragments, mid: seq<Frame>, last: Frame)
    requires g.active && (forall i :: 0 <= i < |mid| ==> Between(mid[i])) && last.opcode == CONTINUATION && last.fin
    ensures Deliveries(g, mid + [last]) ==
            Delivery(Fragments(false, g.opcode, []),
                     Controls(mid) + [Message(g.opcode, g.buffer + Pieces(mid) + last.payload)], false)
    decreases |mid|
  {
    var all := mid + [last];
    if mid == [] {
      assert all == [last] && all[1..] == [];
      assert g.buffer + [] == g.buffer;
    } else {
      assert all[1..] == mid[1..] + [last];
      var d := Deliver(g, mid[0].fin, mid[0].opcode, mid[0].payload);
      MiddleDelivered(d.fragments, mid[1..], last);
      if mid[0].opcode < CLOSE {
        assert g.buffer + mid[0].payload + Pieces(mid[1..]) == g.buffer + Pieces(mid);
      }
    }
  }

  lemma FragmentsDelivered(g: Fragments, first: Frame, mid: seq<Frame>, last: Frame)
    requires !first.fin && 0 < first.opcode < CLOSE
    requires (forall i :: 0 <= i < |mid| ==> Between(mid[i])) && last.opcode == CONTINUATION && last.fin
    ensures Deliveries(g, [first] + mid + [last]) ==
            Delivery(Fragments(false, first.opcode, []),
                     Controls(mid) + [Message(first.opcode, first.payload + Pieces(mid) + last.payload)], false)
  {
    var all := [first] + mid + [last];
    assert all[1..] == mid + [last];
    MiddleDelivered(Fragments(true, first.opcode, first.payload), mid, last);
  }

  /**
   * The bytes of a fragmented message, with control frames in between and anything behind, are parsed to the control
   * messages in their places and then the payloads joined in order under the first opcode.
   */
  lemma FragmentedMessage(g: Fragments, first: Frame, mid: seq<Frame>, last: Frame, rest: seq<u8>)
    requires !first.fin && 0 < first.opcode < CLOSE && last.opcode == CONTINUATION && last.fin
    requires forall i :: 0 <= i < |mid| ==> Between(mid[i]) && WellFormed(mid[i])
    requires WellFormed(first) && WellFormed(last) && (Delayed(last) ==> rest != [])
    ensures Drive(AtHeader(g), EncodeAll([first] + mid + [last]) + rest) ==
            Prefixed(Controls(mid) + [Message(first.opcode, first.payload + Pieces(mid) + last.payload)],
                     Drive(AtHeader(Fragments(false, first.opcode, [])), rest))
  {
    FragmentsDelivered(g, first, mid, last);
    StreamParsed(g, [first] + mid + [last], rest);
  }
}
