/** The WebSocket parser as an object fed with bytes, and the method that builds frames. */
module WsParser {
  import opened Bytes
  import opened Options
  import F = WsFrames
  import S = WsStreams

  datatype State = Header | PayloadLen16 | PayloadLen64 | MaskKey | Payload

  class WsFrameParser {
    var state: State
    // the current frame; payload holds the bytes received so far
    var fin: bool
    var opcode: nat
    var masked: bool
    var payloadLength: nat
    var maskingKey: seq<u8>
    var payload: seq<u8>
    var error: bool
    var fragmentOpcode: nat
    var fragmentBuffer: seq<u8>
    var inFragment: bool
    var buffer: seq<u8>
    var emitted: seq<F.Message>  // calls of the frame callback

    ghost function Head(): F.Head
      reads this
    {
      F.Head(fin, opcode, masked)
    }

    ghost function Fragments(): F.Fragments
      reads this
    {
      F.Fragments(inFragment, fragmentOpcode, fragmentBuffer)
    }

    ghost function View(): F.Parser
      reads this
    {
      var phase := match state
        case Header => F.Header
        case PayloadLen16 => F.Length16(Head())
        case PayloadLen64 => F.Length64(Head())
        case MaskKey => F.MaskKey(Head(), payloadLength)
        case Payload => F.Payload(Head(), payloadLength, maskingKey, payload);
      F.Parser(phase, Fragments(), error)
    }

    ghost predicate Valid()
      reads this
    {
      F.Sane(View()) && (state != Header && state != Payload ==> payload == [] && maskingKey == [0, 0, 0, 0])
    }

    constructor ()
      ensures Valid() && View() == F.NEW_PARSER && buffer == [] && emitted == []
    {
      state, fin, opcode, masked, payloadLength, maskingKey, payload := Header, true, 1, false, 0, [0, 0, 0, 0], [];
      error, fragmentOpcode, fragmentBuffer, inFragment, buffer, emitted := false, F.CONTINUATION, [], false, [], [];
    }

    /** All input is taken, unless an error has occurred before. */
    method Feed(data: seq<u8>) returns (accepted: nat)
      requires Valid()
      modifies this
      ensures Valid()
      ensures var r := F.Feed(old(View()), old(buffer), data);
              View() == r.parser && buffer == r.buffer && emitted == old(emitted) + r.messages
      ensures accepted == if old(error) then 0 else |data|
    {
      if error {
        return 0;
      }
      buffer := buffer + data;
      var consumed := ParseBuffer();
      if consumed > 0 {
        buffer := buffer[consumed..];
      }
      return |data|;
    }

    method ParseBuffer() returns (consumed: nat)
      requires Valid()
      modifies this
      ensures Valid() && buffer == old(buffer) && consumed <= |buffer|
      ensures var r := F.Drive(old(View()), buffer);
              View() == r.parser && buffer[consumed..] == r.buffer && emitted == old(emitted) + r.messages
    {
      consumed := 0;
      ghost var whole, messages: seq<F.Message> := F.Drive(View(), buffer), [];
      assert buffer[0..] == buffer;
      F.PrefixedNone(whole);
      while consumed < |buffer| && !error
        invariant Valid() && buffer == old(buffer) && consumed <= |buffer| && emitted == old(emitted) + messages
        invariant StillToCome(whole, false, View(), buffer[consumed..], messages)
        decreases |buffer| - consumed, if state == Payload then 1 else 0
      {
        var waiting, used;
        waiting, used, messages := ParseNext(consumed, whole, old(emitted), messages);
        consumed := consumed + used;
        if waiting {
          return;
        }
      }
      NothingToCome(whole, View(), buffer[consumed..], messages);
    }

    /** A turn of the loop, and what it means for the whole: `whole` is what is to come after `messages`. */
    method ParseNext(consumed: nat, ghost whole: F.Run, ghost base: seq<F.Message>, ghost messages: seq<F.Message>)
      returns (waiting: bool, used: nat, ghost messages': seq<F.Message>)
      requires Valid() && consumed < |buffer| && !error && emitted == base + messages
      requires StillToCome(whole, false, View(), buffer[consumed..], messages)
      modifies this
      ensures Valid() && buffer == old(buffer) && consumed + used <= |buffer| && emitted == base + messages'
      ensures StillToCome(whole, waiting, View(), buffer[consumed + used..], messages')
      ensures !waiting && used == 0 ==> old(state) == Payload && state == Header
    {
      ghost var was, rest := View(), buffer[consumed..];
      waiting, used := ParseTurn(consumed);
      ghost var t := F.Iterate(was, rest);
      messages' := messages + if waiting then [] else t.value.messages;
      LoopTurn(whole, messages, was, rest, t, buffer[consumed + used..]);
      assert emitted == base + messages';
    }

    /** One turn of the loop: the branch for the current state. */
    method ParseTurn(consumed: nat) returns (waiting: bool, used: nat)
      requires Valid() && consumed < |buffer| && !error
      modifies this
      ensures Valid() && buffer == old(buffer)
      ensures var t := F.Iterate(old(View()), buffer[consumed..]);
              && waiting == t.None? && used == (if waiting then 0 else t.value.used)
              && View() == (if waiting then old(View()) else t.value.parser)
              && emitted == old(emitted) + (if waiting then [] else t.value.messages)
    {
      var p := buffer[consumed..];
      match state
      case Header => waiting, used := ParseHeader(p);
      case PayloadLen16 =>
        if |p| < 2 {
          return true, 0;
        }
        TwoBytes(p);
        payloadLength := p[0] as int * 256 + p[1];
        state := if masked then MaskKey else Payload;
        return false, 2;
      case PayloadLen64 =>
        if |p| < 8 {
          return true, 0;
        }
        payloadLength := ReadLength(p);
        if payloadLength > F.MAX_PAYLOAD {
          error := true;
          return false, 8;
        }
        state := if masked then MaskKey else Payload;
        return false, 8;
      case MaskKey =>
        if |p| < 4 {
          return true, 0;
        }
        ParseMaskKey(p);
        return false, 4;
      case Payload => 
        waiting := false;
        used := ParsePayload(p);
    }

    /** Four bytes of key; an empty payload is complete with it. */
    method ParseMaskKey(p: seq<u8>)
      requires Valid() && state == MaskKey && |p| >= 4 && !error
      modifies this
      ensures Valid() && buffer == old(buffer)
      ensures var t := F.Iterate(old(View()), p).value;
              View() == t.parser && emitted == old(emitted) + t.messages
    {
      maskingKey := p[..4];
      if payloadLength == 0 {
        Unmask();
        ProcessFrame();
        state := Header;
      } else {
        state := Payload;
      }
    }

    /** Two bytes of header. */
    method ParseHeader(p: seq<u8>) returns (waiting: bool, used: nat)
      requires Valid() && state == Header && p != [] && !error
      modifies this
      ensures Valid() && buffer == old(buffer)
      ensures var t := F.Iterate(old(View()), p);
              && waiting == t.None? && (waiting ==> used == 0 && View() == old(View()) && emitted == old(emitted))
              && (!waiting ==> used == t.value.used && View() == t.value.parser)
              && (!waiting ==> emitted == old(emitted) + t.value.messages)
    {
      if |p| < 2 {
        return true, 0;
      }
      StartFrame(p[0], p[1]);
      var len7 := p[1] % 128;
      if len7 < 126 {
        payloadLength := len7;
        if payloadLength == 0 {
          if masked {
            state := MaskKey;
          } else {
            ProcessFrame();
            state := Header;
          }
        } else {
          state := if masked then MaskKey else Payload;
        }
      } else if len7 == 126 {
        state := PayloadLen16;
      } else {
        state := PayloadLen64;
      }
      return false, 2;
    }

    method StartFrame(b0: u8, b1: u8)
      modifies this`payloadLength, this`maskingKey, this`payload, this`fin, this`opcode, this`masked
      ensures Head() == F.HeadOf(b0, b1) && payloadLength == 0 && maskingKey == [0, 0, 0, 0] && payload == []
    {
      payloadLength, maskingKey, payload := 0, [0, 0, 0, 0], [];
      fin, opcode, masked := b0 >= 128, b0 % 16, b1 >= 128;
    }

    /** As much of the payload as there is. */
    method ParsePayload(p: seq<u8>) returns (used: nat)
      requires Valid() && state == Payload && p != [] && !error
      modifies this
      ensures Valid() && buffer == old(buffer)
      ensures var t := F.Iterate(old(View()), p).value;
              used == t.used && View() == t.parser && emitted == old(emitted) + t.messages
    {
      var remaining := payloadLength - |payload|;
      used := if remaining <= |p| then remaining else |p|;
      payload := payload + p[..used];
      if |payload| == payloadLength {
        Unmask();
        ProcessFrame();
        state := Header;
      }
    }

    /** The eight bytes of a long length. */
    static method ReadLength(p: seq<u8>) returns (length: nat)
      requires |p| >= 8
      ensures length == FromBigEndian(p[..8])
    {
      length := 0;
      for i := 0 to 8
        invariant length == FromBigEndian(p[..i])
      {
        assert p[..i + 1][..i] == p[..i];
        length := length * 256 + p[i];
      }
    }

    method Unmask()
      requires |maskingKey| == 4
      modifies this`payload
      ensures payload == if masked then F.Unmasked(old(payload), maskingKey) else old(payload)
      ensures masked ==> F.FlippedBy(payload, old(payload), maskingKey)
    {
      if !masked {
        return;
      }
      F.UnmaskedBitwise(payload, maskingKey);
      var i := 0;
      while i < |payload|
        invariant i <= |payload| == |old(payload)|
        invariant forall k :: 0 <= k < i ==> payload[k] == Xor(old(payload)[k], maskingKey[k % 4])
        invariant forall k :: i <= k < |payload| ==> payload[k] == old(payload)[k]
      {
        payload := payload[i := Xor(payload[i], maskingKey[i % 4])];
        i := i + 1;
      }
    }

    method ProcessFrame()
      requires !error
      modifies this`emitted, this`error, this`inFragment, this`fragmentOpcode, this`fragmentBuffer
      ensures var d := F.Deliver(old(Fragments()), fin, opcode, payload);
              Fragments() == d.fragments && error == d.error && emitted == old(emitted) + d.messages
    {
      if opcode >= F.CLOSE {
        emitted := emitted + [F.Message(opcode, payload)];
        return;
      }
      if opcode != F.CONTINUATION {
        if fin {
          emitted := emitted + [F.Message(opcode, payload)];
        } else {
          inFragment, fragmentOpcode, fragmentBuffer := true, opcode, payload;
        }
      } else {
        if !inFragment {
          error := true;
          return;
        }
        fragmentBuffer := fragmentBuffer + payload;
        if fin {
          inFragment := false;
          emitted := emitted + [F.Message(fragmentOpcode, fragmentBuffer)];
          fragmentBuffer := [];
        }
      }
    }
  }

  /** What the whole input amounts to, given the messages so far and the rest to be parsed, if any. */
  ghost predicate StillToCome(whole: F.Run, waiting: bool, p: F.Parser, rest: seq<u8>, messages: seq<F.Message>)
    requires F.Sane(p)
  {
    whole == if waiting then F.Run(p, rest, messages) else F.Prefixed(messages, F.Drive(p, rest))
  }

  lemma NothingToCome(whole: F.Run, p: F.Parser, rest: seq<u8>, messages: seq<F.Message>)
    requires F.Sane(p) && (rest == [] || p.error) && StillToCome(whole, false, p, rest, messages)
    ensures StillToCome(whole, true, p, rest, messages)
  {
  }

  lemma LoopTurn(whole: F.Run, messages: seq<F.Message>, p: F.Parser, rest: seq<u8>, t: Option<F.Turn>, next: seq<u8>)
    requires F.Sane(p) && !p.error && rest != [] && t == F.Iterate(p, rest)
    requires next == if t.None? then rest else rest[t.value.used..]
    requires whole == F.Prefixed(messages, F.Drive(p, rest))
    ensures StillToCome(whole, t.None?, if t.None? then p else t.value.parser, next,
                        messages + if t.None? then [] else t.value.messages)
  {
  }

  /** Writes header and payload into an allocated buffer; `hasRoom` says whether the pool had room. */
  method BuildWsFrame(opcode: nat, payload: seq<u8>, hasRoom: bool) returns (frame: Option<array<u8>>)
    requires opcode < 16 && |payload| + 10 < 0x1_0000_0000  // header and payload are added in 32 bits
    ensures frame.Some? <==> hasRoom
    ensures frame.Some? ==> fresh(frame.value) && frame.value[..] == S.BuiltBytes(opcode, payload)
  {
    var headerSize := 2;
    if 126 <= |payload| <= 65535 {
      headerSize := headerSize + 2;
    } else if |payload| > 65535 {
      headerSize := headerSize + 8;
    }
    if !hasRoom {
      return None;
    }
    var p := new u8[headerSize + |payload|](_ => 0);
    WriteHeader(p, opcode, |payload|, headerSize);
    ghost var header := p[..headerSize];
    var i := 0;
    while i < |payload|
      invariant i <= |payload| && p[..headerSize] == header
      invariant p[headerSize..headerSize + i] == payload[..i]
    {
      p[headerSize + i] := payload[i];
      i := i + 1;
    }
    assert payload[..i] == payload && p[headerSize..] == p[headerSize..headerSize + i];
    assert p[..] == p[..headerSize] + p[headerSize..];
    return Some(p);
  }

  method WriteHeader(p: array<u8>, opcode: nat, length: nat, headerSize: nat)
    requires opcode < 16 && headerSize <= p.Length
    requires headerSize == if length < 126 then 2 else if length <= 65535 then 4 else 10
    modifies p
    ensures p[..headerSize] ==
            [128 + opcode, if length < 126 then length else if length <= 65535 then 126 else 127]
            + (if length < 126 then [] else if length <= 65535 then BigEndian(length, 2) else BigEndian(length, 8))
  {
    p[0] := 128 + opcode;
    if length < 126 {
      p[1] := length;
    } else if length <= 65535 {
      p[1] := 126;
      p[2] := length / 256 % 256;
      p[3] := length % 256;
      ShortLengths(length);
    } else {
      p[1] := 127;
      WriteLength(p, length);
    }
  }

  lemma TwoBytes(p: seq<u8>)
    requires |p| >= 2
    ensures FromBigEndian(p[..2]) == p[0] as int * 256 + p[1]
  {
    assert FromBigEndian([]) == 0;
    assert [p[0]][..0] == [];
    assert FromBigEndian([p[0]]) == p[0];
    assert p[..2][..1] == [p[0]];
  }

  lemma ShortLengths(n: nat)
    ensures BigEndian(n, 2) == [n / 256 % 256, n % 256]
  {
  }

  /** The eight length bytes, most significant first. */
  method WriteLength(p: array<u8>, length: nat)
    requires p.Length >= 10
    modifies p
    ensures p[..2] == old(p[..2]) && p[2..10] == BigEndian(length, 8) && p[10..] == old(p[10..])
  {
    var i := 0;
    while i < 8
      invariant 0 <= i <= 8 && p[..2] == old(p[..2]) && p[10..] == old(p[10..])
      invariant forall k :: 0 <= k < i ==> p[2 + k] == BigEndian(length, 8)[k]
    {
      BigEndianAt(length, 8, i);
      p[2 + i] := length / Pow256(7 - i) % 256;
      i := i + 1;
    }
  }
}
