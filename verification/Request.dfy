/** Outgoing packets, the guard in front of the socket, and the packets the inverter answers with. */
module Request {
  import opened Bytes
  import Crc
  import opened Response

  const PROTOCOL := 1
  const FRAME_LENGTH := 32
  const DATA_LENGTH := 18
  const ACTION_WRITE := 0
  const WRITE_SINGLE := 6
  const READ_INPUT := 4

  datatype Built = Packet(bytes: seq<byte>) | ValueError | OverflowError

  // ---------- specification: the 38-byte request ----------

  function Envelope(dongle: seq<byte>): seq<byte> {
    PREFIX + TwoBytes(PROTOCOL) + TwoBytes(FRAME_LENGTH) + [1] + [TRANSLATED_DATA] + dongle + TwoBytes(DATA_LENGTH)
  }

  function RequestFrame(function_: byte, serial: seq<byte>, register: nat, word: nat): seq<byte>
    requires register < 0x1_0000 && word < 0x1_0000
  {
    [ACTION_WRITE] + [function_] + serial + TwoBytes(register) + TwoBytes(word)
  }

  /** A read of `word` registers from `register`, or a write of `word` to it: they differ in the function byte. */
  function RequestPacket(dongle: seq<byte>, serial: seq<byte>, function_: byte, register: nat, word: nat)
    : (p: seq<byte>)
    requires |dongle| == 10 && |serial| == 10 && register < 0x1_0000 && word < 0x1_0000
    ensures |p| == 38
  {
    var frame := RequestFrame(function_, serial, register, word);
    Envelope(dongle) + frame + TwoBytes(Crc.Crc16(frame))
  }

  // ---------- the builder ----------

  lemma FrameBehindEnvelope(dongle: seq<byte>, frame: seq<byte>)
    requires |dongle| == 10 && |frame| == 16
    ensures (Envelope(dongle) + frame)[20..36] == frame
  {
  }

  method PreparePacketForRead(dongle: seq<byte>, serial: seq<byte>, start: int, count: int, function_: byte)
    returns (r: Built)
    ensures r == if |dongle| == 10 && |serial| == 10 && 0 <= start <= 0xFFFF && 1 <= count <= 0xFFFF
                 then Packet(RequestPacket(dongle, serial, function_, start, count)) else ValueError
  {
    if |dongle| != 10 {
      return ValueError;
    }
    if |serial| != 10 {
      return ValueError;
    }
    if !(0 <= start <= 0xFFFF) {
      return ValueError;
    }
    if !(1 <= count <= 0xFFFF) {
      return ValueError;
    }
    var buf: seq<byte> := [];
    buf := buf + PREFIX;
    buf := buf + TwoBytes(PROTOCOL);
    buf := buf + TwoBytes(FRAME_LENGTH);
    buf := buf + [1];
    buf := buf + [TRANSLATED_DATA];
    buf := buf + dongle;
    buf := buf + TwoBytes(DATA_LENGTH);
    assert buf == Envelope(dongle);
    buf := buf + [ACTION_WRITE];
    buf := buf + [function_];
    buf := buf + serial;
    buf := buf + TwoBytes(start);
    buf := buf + TwoBytes(count);
    assert buf == Envelope(dongle) + RequestFrame(function_, serial, start, count);
    var dataFrame := buf[20..36];
    FrameBehindEnvelope(dongle, RequestFrame(function_, serial, start, count));
    var crc := Crc.ComputeCrc(dataFrame);
    buf := buf + TwoBytes(crc);
    r := Packet(buf);
  }

  /** As the source: the register must fit in two bytes, the value is cut down to its low sixteen bits. */
  method PreparePacketForWrite(dongle: seq<byte>, serial: seq<byte>, register: int, value: int) returns (r: Built)
    ensures r == if |dongle| != 10 || |serial| != 10 then ValueError
                 else if !(0 <= register <= 0xFFFF) then OverflowError
                 else Packet(RequestPacket(dongle, serial, WRITE_SINGLE, register, value % 0x1_0000))
  {
    if |dongle| != 10 {
      return ValueError;
    }
    if |serial| != 10 {
      return ValueError;
    }
    var buf: seq<byte> := [];
    buf := buf + PREFIX;
    buf := buf + TwoBytes(PROTOCOL);
    buf := buf + TwoBytes(FRAME_LENGTH);
    buf := buf + [1];
    buf := buf + [TRANSLATED_DATA];
    buf := buf + dongle;
    buf := buf + TwoBytes(DATA_LENGTH);
    assert buf == Envelope(dongle);
    buf := buf + [ACTION_WRITE];
    buf := buf + [WRITE_SINGLE];
    buf := buf + serial;
    if !(0 <= register <= 0xFFFF) {
      return OverflowError;
    }
    buf := buf + TwoBytes(register);
    buf := buf + TwoBytes(value % 0x1_0000);
    assert buf == Envelope(dongle) + RequestFrame(WRITE_SINGLE, serial, register, value % 0x1_0000);
    var dataFrame := buf[20..36];
    FrameBehindEnvelope(dongle, RequestFrame(WRITE_SINGLE, serial, register, value % 0x1_0000));
    var crc := Crc.ComputeCrc(dataFrame);
    buf := buf + TwoBytes(crc);
    r := Packet(buf);
  }

  // ---------- the guard ----------

  datatype Verdict = Send | Refuse | IndexError

  /** All fourteen checks are evaluated before any is looked at, so a short packet fails on its missing bytes. */
  function Guard(packet: seq<byte>, dongle: seq<byte>, serial: seq<byte>, start: int, count: int): Verdict {
    if |packet| < 22 then IndexError
    else if
      && |packet| == 38
      && packet[..2] == PREFIX
      && LittleEndian(packet[2..4]) == PROTOCOL
      && LittleEndian(packet[4..6]) == |packet| - 6
      && packet[6] == 1
      && packet[7] == TRANSLATED_DATA
      && packet[8..18] == dongle
      && LittleEndian(packet[18..20]) == DATA_LENGTH
      && packet[20] == ACTION_WRITE
      && packet[21] == READ_INPUT
      && packet[22..32] == serial
      && LittleEndian(packet[32..34]) == start
      && LittleEndian(packet[34..36]) == count
      && LittleEndian(packet[36..38]) == Crc.Crc16(packet[20..36])
    then Send
    else Refuse
  }

  /** Reading the fields of a request packet back. */
  lemma RequestFields(p: seq<byte>, dongle: seq<byte>, serial: seq<byte>, function_: byte, register: nat, word: nat)
    requires |dongle| == 10 && |serial| == 10 && register < 0x1_0000 && word < 0x1_0000
    requires p == RequestPacket(dongle, serial, function_, register, word)
    ensures p[..2] == PREFIX && p[2..4] == TwoBytes(PROTOCOL) && p[4..6] == TwoBytes(FRAME_LENGTH)
    ensures p[6] == 1 && p[7] == TRANSLATED_DATA && p[8..18] == dongle && p[18..20] == TwoBytes(DATA_LENGTH)
    ensures p[20..36] == RequestFrame(function_, serial, register, word)
    ensures p[20] == ACTION_WRITE && p[21] == function_ && p[22..32] == serial
    ensures p[32..34] == TwoBytes(register) && p[34..36] == TwoBytes(word)
    ensures p[36..38] == TwoBytes(Crc.Crc16(p[20..36]))
  {
    var frame := RequestFrame(function_, serial, register, word);
    var head := Envelope(dongle);
    assert p[20..36] == frame;
    assert head[8..18] == dongle && p[8..18] == head[8..18];
    assert frame[2..12] == serial && p[22..32] == frame[2..12];
  }

  /** A 38-byte packet is determined by the fields the guard looks at. */
  lemma SameFieldsSamePacket(p: seq<byte>, q: seq<byte>)
    requires |p| == |q| == 38
    requires p[..2] == q[..2] && p[2..4] == q[2..4] && p[4..6] == q[4..6] && p[6] == q[6] && p[7] == q[7]
    requires p[8..18] == q[8..18] && p[18..20] == q[18..20] && p[20] == q[20] && p[21] == q[21]
    requires p[22..32] == q[22..32] && p[32..34] == q[32..34] && p[34..36] == q[34..36] && p[36..38] == q[36..38]
    ensures p == q
  {
    var cuts := [2, 4, 6, 7, 8, 18, 20, 21, 22, 32, 34, 36, 38];
    assert p[6..7] == [p[6]] && p[7..8] == [p[7]] && p[20..21] == [p[20]] && p[21..22] == [p[21]];
    assert q[6..7] == [q[6]] && q[7..8] == [q[7]] && q[20..21] == [q[20]] && q[21..22] == [q[21]];
    for n := 1 to |cuts|
      invariant p[..cuts[n - 1]] == q[..cuts[n - 1]]
    {
      SamePrefix(p, q, cuts[n - 1], cuts[n]);
    }
    assert p[..38] == p && q[..38] == q;
  }

  lemma SamePrefix<T>(p: seq<T>, q: seq<T>, i: nat, j: nat)
    requires i <= j <= |p| && j <= |q| && p[..i] == q[..i] && p[i..j] == q[i..j]
    ensures p[..j] == q[..j]
  {
    assert p[..j] == p[..i] + p[i..j];
    assert q[..j] == q[..i] + q[i..j];
  }

  lemma SameFrame(p: seq<byte>, q: seq<byte>)
    requires |p| == |q| == 38
    requires p[20] == q[20] && p[21] == q[21] && p[22..32] == q[22..32] && p[32..34] == q[32..34]
             && p[34..36] == q[34..36]
    ensures p[20..36] == q[20..36]
  {
    assert p[20..36] == [p[20]] + [p[21]] + p[22..32] + p[32..34] + p[34..36];
    assert q[20..36] == [q[20]] + [q[21]] + q[22..32] + q[32..34] + q[34..36];
  }

  /** The guard lets a packet through exactly when it is, byte for byte, the FC4 read built for that range. */
  lemma GuardExact(packet: seq<byte>, dongle: seq<byte>, serial: seq<byte>, start: nat, count: nat)
    requires |dongle| == 10 && |serial| == 10 && start < 0x1_0000 && count < 0x1_0000
    ensures Guard(packet, dongle, serial, start, count) == Send
       <==> packet == RequestPacket(dongle, serial, READ_INPUT, start, count)
  {
    var built := RequestPacket(dongle, serial, READ_INPUT, start, count);
    RequestFields(built, dongle, serial, READ_INPUT, start, count);
    if Guard(packet, dongle, serial, start, count) == Send {
      TwoBytesOfSlice(packet[2..4]);
      TwoBytesOfSlice(packet[4..6]);
      TwoBytesOfSlice(packet[18..20]);
      TwoBytesOfSlice(packet[32..34]);
      TwoBytesOfSlice(packet[34..36]);
      TwoBytesOfSlice(packet[36..38]);
      SameFrame(packet, built);
      SameFieldsSamePacket(packet, built);
    }
  }

  /** No write packet passes, whatever range the guard was asked to check it against. */
  lemma GuardRefusesWrites(dongle: seq<byte>, serial: seq<byte>, register: nat, word: nat, start: int, count: int)
    requires |dongle| == 10 && |serial| == 10 && register < 0x1_0000 && word < 0x1_0000
    ensures Guard(RequestPacket(dongle, serial, WRITE_SINGLE, register, word), dongle, serial, start, count) == Refuse
  {
    var built := RequestPacket(dongle, serial, WRITE_SINGLE, register, word);
    RequestFields(built, dongle, serial, WRITE_SINGLE, register, word);
  }

  /** A write packet reads back as its one register, holding the low sixteen bits of the value. */
  lemma WriteRoundTrip(dongle: seq<byte>, serial: seq<byte>, register: nat, value: int)
    requires |dongle| == 10 && |serial| == 10 && register < 0x1_0000
    ensures var p := Parse(RequestPacket(dongle, serial, WRITE_SINGLE, register, value % 0x1_0000));
            && !p.raised && !p.packetError && p.dongle == dongle && p.serial == serial
            && ParsedValues(p) == map[register := value % 0x1_0000]
  {
    var word := value % 0x1_0000;
    var packet := RequestPacket(dongle, serial, WRITE_SINGLE, register, word);
    RequestFields(packet, dongle, serial, WRITE_SINGLE, register, word);
    var frame := packet[20..36];
    assert DataFrame(packet, 38) == frame;
    assert frame[2..12] == serial && frame[12..14] == TwoBytes(register) && frame[14..16] == TwoBytes(word);
    WordsAt(TwoBytes(word), 0);
  }

  // ---------- answers ----------

  function WordBytes(values: seq<nat>): (b: seq<byte>)
    requires forall i :: 0 <= i < |values| ==> values[i] < 0x1_0000
    ensures |b| == 2 * |values|
  {
    if values == [] then [] else TwoBytes(values[0]) + WordBytes(values[1..])
  }

  lemma {:induction false} WordsRoundTrip(values: seq<nat>)
    requires forall i :: 0 <= i < |values| ==> values[i] < 0x1_0000
    ensures Words(WordBytes(values)) == values
  {
    if values != [] {
      WordsRoundTrip(values[1..]);
      assert WordBytes(values)[2..] == WordBytes(values[1..]);
    }
  }

  function ResponseFrame(serial: seq<byte>, start: nat, values: seq<nat>): seq<byte>
    requires start < 0x1_0000 && |values| <= 125
    requires forall i :: 0 <= i < |values| ==> values[i] < 0x1_0000
  {
    [1, READ_INPUT] + serial + TwoBytes(start) + [2 * |values|] + WordBytes(values)
  }

  /** The inverter's answer to an FC4 read, in the response layouts of protocols 2 and 5. */
  function ResponsePacket(protocol: nat, dongle: seq<byte>, serial: seq<byte>, start: nat, values: seq<nat>)
    : (p: seq<byte>)
    requires protocol in {2, 5} && |dongle| == 10 && |serial| == 10 && start < 0x1_0000 && |values| <= 125
    requires forall i :: 0 <= i < |values| ==> values[i] < 0x1_0000
    ensures |p| == 37 + 2 * |values|
  {
    var frame := ResponseFrame(serial, start, values);
    PREFIX + TwoBytes(protocol) + TwoBytes(31 + 2 * |values|) + [1, TRANSLATED_DATA]
      + dongle + TwoBytes(17 + 2 * |values|) + frame + TwoBytes(Crc.Crc16(frame))
  }

  lemma ResponseFields(p: seq<byte>, protocol: nat, dongle: seq<byte>, serial: seq<byte>, start: nat, values: seq<nat>)
    requires protocol in {2, 5} && |dongle| == 10 && |serial| == 10 && start < 0x1_0000 && |values| <= 125
    requires forall i :: 0 <= i < |values| ==> values[i] < 0x1_0000
    requires p == ResponsePacket(protocol, dongle, serial, start, values)
    ensures p[..2] == PREFIX && p[2..4] == TwoBytes(protocol) && p[4..6] == TwoBytes(31 + 2 * |values|)
    ensures p[7] == TRANSLATED_DATA && p[8..18] == dongle && p[18..20] == TwoBytes(17 + 2 * |values|)
    ensures p[20..|p| - 2] == ResponseFrame(serial, start, values)
    ensures p[|p| - 2..] == TwoBytes(Crc.Crc16(p[20..|p| - 2]))
  {
    var head := PREFIX + TwoBytes(protocol) + TwoBytes(31 + 2 * |values|) + [1, TRANSLATED_DATA];
    var frame := ResponseFrame(serial, start, values);
    FiveParts(p, head, dongle, TwoBytes(17 + 2 * |values|), frame, TwoBytes(Crc.Crc16(frame)));
    FiveParts(head, PREFIX, TwoBytes(protocol), TwoBytes(31 + 2 * |values|), [1], [TRANSLATED_DATA]) by {
      assert [1, TRANSLATED_DATA] == [1] + [TRANSLATED_DATA];
    }
    SliceOfFront(p, 8, 0, 2);
    SliceOfFront(p, 8, 2, 4);
    SliceOfFront(p, 8, 4, 6);
    SliceOfFront(p, 8, 7, 8);
    hide *;
    assert p[7..8] == [p[7]];
  }

  lemma FrameFields(frame: seq<byte>, serial: seq<byte>, register: seq<byte>, length: byte, tail: seq<byte>)
    requires |serial| == 10 && |register| == 2
    requires frame == [1, READ_INPUT] + serial + register + [length] + tail
    ensures frame[0] == 1 && frame[1] == READ_INPUT && frame[2..12] == serial && frame[12..14] == register
    ensures frame[14] == length && frame[15..] == tail
  {
    var head := [1, READ_INPUT] + serial + register + [length];
    assert frame == head + tail;
    assert head[2..12] == serial && head[12..14] == register;
    assert frame[2..12] == head[2..12] && frame[12..14] == head[12..14];
  }

  lemma ResponseFrameParses(frame: seq<byte>, serial: seq<byte>, start: nat, values: seq<nat>, header: Parsed)
    requires |serial| == 10 && start < 0x1_0000 && |values| <= 125 && header.protocol in {2, 5}
    requires forall i :: 0 <= i < |values| ==> values[i] < 0x1_0000
    requires frame == ResponseFrame(serial, start, values)
    ensures ParseFrame(frame, header) == header.(packetError := false, addressAction := 1, deviceFunction := READ_INPUT,
                                                serial := serial, register := start,
                                                valueLength := 2 * |values|, value := WordBytes(values))
  {
    FrameFields(frame, serial, TwoBytes(start), 2 * |values|, WordBytes(values));
    assert Slice(frame, 15, 15 + 2 * |values|) == WordBytes(values);
  }

  /** A framed translated packet with a matching trailer parses to what its frame says. */
  lemma IntactPacketParses(packet: seq<byte>, frame: seq<byte>)
    requires Framed(packet) && packet[7] == TRANSLATED_DATA && |packet| >= RESPONSE_OVERHEAD
    requires frame == packet[20..|packet| - 2]
    requires packet[|packet| - 2..] == TwoBytes(Crc.Crc16(frame))
    ensures Parse(packet) == ParseFrame(frame, BLANK.(
              protocol := LittleEndian(packet[2..4]), frameLength := |packet| - 6, tcpFunction := TRANSLATED_DATA,
              dongle := packet[8..18], dataLength := LittleEndian(packet[18..20])))
  {
    assert DataFrame(packet, |packet|) == frame;
    assert Slice(packet, |packet| - 2, |packet|) == packet[|packet| - 2..];
  }

  function ParsedResponse(protocol: nat, dongle: seq<byte>, serial: seq<byte>, start: nat, values: seq<nat>): Parsed
    requires |values| <= 125 && forall i :: 0 <= i < |values| ==> values[i] < 0x1_0000
  {
    Parsed(false, false, 0, protocol, TRANSLATED_DATA, start, READ_INPUT, 31 + 2 * |values|, 17 + 2 * |values|, 1,
           dongle, serial, 2 * |values|, WordBytes(values))
  }

  lemma ResponseParses(packet: seq<byte>, protocol: nat, dongle: seq<byte>, serial: seq<byte>, start: nat,
      values: seq<nat>)
    requires protocol in {2, 5} && |dongle| == 10 && |serial| == 10 && start < 0x1_0000 && |values| <= 125
    requires forall i :: 0 <= i < |values| ==> values[i] < 0x1_0000
    requires packet == ResponsePacket(protocol, dongle, serial, start, values)
    ensures Framed(packet)
    ensures Parse(packet) == ParsedResponse(protocol, dongle, serial, start, values)
  {
    ResponseFields(packet, protocol, dongle, serial, start, values);
    var frame := ResponseFrame(serial, start, values);
    var header := BLANK.(protocol := protocol, frameLength := |packet| - 6, tcpFunction := TRANSLATED_DATA,
                         dongle := dongle, dataLength := 17 + 2 * |values|);
    assert Parse(packet) == ParseFrame(frame, header) by {
      IntactPacketParses(packet, frame);
    }
    ResponseFrameParses(frame, serial, start, values, header);
  }

  lemma ParsedResponseValues(p: Parsed, protocol: nat, dongle: seq<byte>, serial: seq<byte>, start: nat,
      values: seq<nat>)
    requires |values| <= 125 && forall i :: 0 <= i < |values| ==> values[i] < 0x1_0000
    requires p == ParsedResponse(protocol, dongle, serial, start, values)
    ensures ValueList(p) == values && ParsedValues(p) == Dictionary(start, values)
  {
    WordsRoundTrip(values);
  }

  /** Every FC4 answer of up to 125 registers parses to exactly the registers and values it was built from. */
  lemma ResponseRoundTrip(packet: seq<byte>, p: Parsed, protocol: nat, dongle: seq<byte>, serial: seq<byte>,
                          start: nat, values: seq<nat>)
    requires protocol in {2, 5} && |dongle| == 10 && |serial| == 10 && start < 0x1_0000 && |values| <= 125
    requires forall i :: 0 <= i < |values| ==> values[i] < 0x1_0000
    requires packet == ResponsePacket(protocol, dongle, serial, start, values) && p == Parse(packet)
    ensures !p.raised && !p.packetError && p.tcpFunction == TRANSLATED_DATA
    ensures ParsedValues(p) == Dictionary(start, values)
  {
    ResponseParses(packet, protocol, dongle, serial, start, values);
    ParsedResponseValues(p, protocol, dongle, serial, start, values);
  }
}
