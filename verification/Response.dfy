/** The response parser: what one received packet says, and which packets it turns away. */
module Response {
  import opened Bytes
  import Crc

  const TRANSLATED_DATA := 194
  const FUNCTION_193 := 193
  const RESPONSE_OVERHEAD := 37

  /**
   * The fields a parsed packet ends up with. As in the source, a numeric field that parsing never
   * reached is -1. `raised` says that construction itself failed with an index error.
   */
  datatype Parsed = Parsed(
    raised: bool,
    packetError: bool,
    exception: nat,
    protocol: int,
    tcpFunction: int,
    register: int,
    deviceFunction: int,
    frameLength: int,
    dataLength: int,
    addressAction: int,
    dongle: seq<byte>,
    serial: seq<byte>,
    valueLength: nat,
    value: seq<byte>)

  const BLANK := Parsed(false, true, 0, -1, -1, -1, -1, -1, -1, -1, [], [], 0, [])

  // ---------- specification ----------

  function Parse(packet: seq<byte>): Parsed {
    if |packet| < 8 || packet[..2] != PREFIX then BLANK
    else
      var head := BLANK.(protocol := LittleEndian(packet[2..4]), frameLength := LittleEndian(packet[4..6]));
      if |packet| < head.frameLength + 6 then head
      else
        var typed := head.(tcpFunction := packet[7]);
        if packet[7] == TRANSLATED_DATA then ParseTranslated(packet, typed)
        else if packet[7] == FUNCTION_193 && |packet| >= 19 then
          typed.(packetError := false, dongle := packet[8..18], value := packet[18..], valueLength := |packet| - 18)
        else typed
  }

  /** The bytes between the outer envelope and the CRC. */
  function DataFrame(packet: seq<byte>, declared: nat): seq<byte>
    requires declared >= 6
  {
    Slice(packet, 20, declared - 2)
  }

  function Trailer(packet: seq<byte>, declared: nat): nat
    requires declared >= 6
  {
    LittleEndian(Slice(packet, declared - 2, declared))
  }

  function ParseTranslated(packet: seq<byte>, typed: Parsed): Parsed
    requires |packet| >= 8 && typed.frameLength >= 0
  {
    if |packet| < RESPONSE_OVERHEAD then typed
    else
      var p := typed.(dongle := packet[8..18], dataLength := LittleEndian(packet[18..20]));
      var frame := DataFrame(packet, typed.frameLength + 6);
      if Crc.Crc16(frame) != Trailer(packet, typed.frameLength + 6) then p else ParseFrame(frame, p)
  }

  predicate LengthByteFollows(protocol: int, function_: int) {
    protocol in {2, 5} && function_ != 6 && function_ < 0x80
  }

  function ParseFrame(frame: seq<byte>, p: Parsed): Parsed {
    if |frame| < 2 then p.(raised := true)
    else
      var q := p.(addressAction := frame[0], deviceFunction := frame[1],
                  serial := Slice(frame, 2, 12), register := LittleEndian(Slice(frame, 12, 14)));
      if LengthByteFollows(p.protocol, frame[1]) then
        if |frame| < 15 then q.(raised := true)
        else q.(packetError := false, valueLength := frame[14], value := Slice(frame, 15, 15 + (frame[14] as int)))
      else if frame[1] >= 0x80 then
        if |frame| < 15 then q.(raised := true)
        else q.(packetError := false, valueLength := 0, value := [], exception := frame[14])
      else q.(packetError := false, valueLength := 2, value := Slice(frame, 14, 16))
  }

  /** Consecutive little-endian register words. */
  function Words(value: seq<byte>): seq<nat> {
    if |value| < 2 then [] else [value[0] as int + 256 * (value[1] as int)] + Words(value[2..])
  }

  lemma {:induction false} WordsAt(value: seq<byte>, i: nat)
    requires i < |value| / 2
    ensures |Words(value)| == |value| / 2
    ensures Words(value)[i] == value[2 * i] as int + 256 * (value[2 * i + 1] as int)
    decreases i
  {
    WordsLength(value);
    if i > 0 {
      WordsAt(value[2..], i - 1);
    }
  }

  lemma {:induction false} WordsLength(value: seq<byte>)
    ensures |Words(value)| == |value| / 2
    decreases |value|
  {
    if |value| >= 2 {
      WordsLength(value[2..]);
    }
  }

  /** The register values the packet carries, from its start register upwards. */
  function ValueList(p: Parsed): seq<nat> {
    if |p.value| % 2 != 0 || p.exception != 0 then [] else Words(p.value)
  }

  function Dictionary(start: int, values: seq<nat>): (d: map<int, nat>)
    ensures forall r :: r in d <==> start <= r < start + |values|
    ensures forall r :: r in d ==> d[r] == values[r - start]
  {
    if values == [] then map[]
    else
      var last := |values| - 1;
      Dictionary(start, values[..last])[start + last := values[last]]
  }

  /** `parsed_values_dictionary`. */
  function ParsedValues(p: Parsed): map<int, nat> {
    Dictionary(p.register, ValueList(p))
  }

  // ---------- the constructor of the source, field by field ----------

  /** Parses `packet`, leaving early wherever it turns out to be unusable. */
  method ParseResponse(packet: seq<byte>) returns (r: Parsed)
    ensures r == Parse(packet)
  {
    r := BLANK;
    if |packet| < 8 {
      return;
    }
    if packet[..2] != PREFIX {
      return;
    }
    r := r.(protocol := LittleEndian(packet[2..4]));
    r := r.(frameLength := LittleEndian(packet[4..6]));
    var declared := r.frameLength + 6;
    if |packet| < declared {
      return;
    }
    r := r.(tcpFunction := packet[7]);
    if r.tcpFunction == TRANSLATED_DATA {
      if |packet| < RESPONSE_OVERHEAD {
        return;
      }
      r := r.(dongle := packet[8..18], dataLength := LittleEndian(packet[18..20]));
      var intact, frame := GetDataFrame(packet, declared, 20);
      if !intact {
        return;
      }
      r := ReadFrame(frame, r);
    } else if r.tcpFunction == FUNCTION_193 {
      if |packet| < 19 {
        return;
      }
      r := r.(dongle := packet[8..18], value := packet[18..], valueLength := |packet| - 18);
      r := r.(packetError := false);
    } else {
      // Checked only to word the error; the packet is refused either way.
      var _, _ := GetDataFrame(packet, declared, 8);
    }
  }

  method GetDataFrame(packet: seq<byte>, declared: nat, start: nat) returns (intact: bool, frame: seq<byte>)
    requires declared >= 6
    ensures frame == Slice(packet, start, declared - 2)
    ensures intact <==> Crc.Crc16(frame) == Trailer(packet, declared)
  {
    frame := Slice(packet, start, declared - 2);
    var received := LittleEndian(Slice(packet, declared - 2, declared));
    var calculated := Crc.ComputeCrc(frame);
    intact := calculated == received;
  }

  method ReadFrame(frame: seq<byte>, header: Parsed) returns (r: Parsed)
    ensures r == ParseFrame(frame, header)
  {
    r := header;
    if |frame| < 2 {
      return r.(raised := true);
    }
    r := r.(addressAction := frame[0], deviceFunction := frame[1]);
    r := r.(serial := Slice(frame, 2, 12), register := LittleEndian(Slice(frame, 12, 14)));
    if LengthByteFollows(r.protocol, r.deviceFunction) {
      if |frame| < 15 {
        return r.(raised := true);
      }
      r := r.(valueLength := frame[14]);
      r := r.(value := Slice(frame, 15, 15 + r.valueLength));
    } else if r.deviceFunction >= 0x80 {
      if |frame| < 15 {
        return r.(raised := true);
      }
      r := r.(valueLength := 0, value := [], exception := frame[14]);
    } else {
      r := r.(valueLength := 2, value := Slice(frame, 14, 16));
    }
    r := r.(packetError := false);
  }

  // ---------- what parsing guarantees ----------

  /** `packet` is exactly as long as its header declares: the only packets a frame decoder hands over. */
  predicate Framed(packet: seq<byte>) {
    |packet| >= 8 && packet[..2] == PREFIX && |packet| == LittleEndian(packet[4..6]) + 6
  }

  /** Construction never fails on a framed packet, although it can on a longer one. */
  lemma FramedNeverRaises(packet: seq<byte>)
    requires Framed(packet)
    ensures !Parse(packet).raised
  {
  }

  /** The fields the parser indexes without looking at the length of the data frame. */
  predicate TooShortForItsFunction(frame: seq<byte>, protocol: nat) {
    |frame| < 2 || (|frame| < 15 && (LengthByteFollows(protocol, frame[1]) || frame[1] >= 0x80))
  }

  /** Exactly when construction fails: an intact translated packet whose declared frame is too short for its
      function. */
  lemma RaisesExactly(packet: seq<byte>)
    ensures Parse(packet).raised <==>
              && |packet| >= RESPONSE_OVERHEAD && packet[..2] == PREFIX && packet[7] == TRANSLATED_DATA
              && Declared(packet) <= |packet|
              && Crc.Crc16(DataFrame(packet, Declared(packet))) == Trailer(packet, Declared(packet))
              && TooShortForItsFunction(DataFrame(packet, Declared(packet)), LittleEndian(packet[2..4]))
  {
    hide Crc.Crc16;
  }

  /** Such packets exist: one declaring 20 bytes has an empty data frame, whose CRC its bytes 18 and 19 can match. */
  lemma ShortDeclarationRaises(packet: seq<byte>)
    requires |packet| >= RESPONSE_OVERHEAD && packet[..2] == PREFIX && packet[7] == TRANSLATED_DATA
    requires Declared(packet) == 20 && packet[18..20] == [0xFF, 0xFF]
    ensures Parse(packet).raised
  {
    assert DataFrame(packet, 20) == [];
    Crc.EmptyMessage();
    assert Slice(packet, 18, 20) == [0xFF, 0xFF];
    hide Crc.Crc16;
  }

  predicate AcceptedTranslated(packet: seq<byte>) {
    var p := Parse(packet);
    !p.raised && !p.packetError && p.tcpFunction == TRANSLATED_DATA
  }

  function Declared(packet: seq<byte>): nat
    requires |packet| >= 8
  {
    LittleEndian(packet[4..6]) + 6
  }

  /** The bytes the CRC vouches for, trailer included. */
  function Protected(packet: seq<byte>): seq<byte>
    requires |packet| >= 8
  {
    Slice(packet, 20, Declared(packet))
  }

  /** An accepted translated packet is one whose protected bytes drive the CRC register to zero. */
  lemma AcceptedHasZeroResidue(packet: seq<byte>)
    requires AcceptedTranslated(packet)
    ensures |packet| >= RESPONSE_OVERHEAD && 24 <= Declared(packet) <= |packet|
    ensures Crc.Crc16(Protected(packet)) == 0
  {
    var declared := Declared(packet);
    var frame := DataFrame(packet, declared);
    assert |frame| >= 2;
    var lo, hi := packet[declared - 2], packet[declared - 1];
    assert Slice(packet, declared - 2, declared) == [lo, hi];
    assert Protected(packet) == frame + [lo, hi];
    Crc.TrailerChecks(frame, lo, hi);
  }

  lemma NonzeroResidueRejected(packet: seq<byte>)
    requires |packet| >= RESPONSE_OVERHEAD && packet[..2] == PREFIX && packet[7] == TRANSLATED_DATA
    requires 24 <= Declared(packet) <= |packet|
    requires Crc.Crc16(Protected(packet)) != 0
    ensures Parse(packet).packetError && !Parse(packet).raised && Parse(packet).deviceFunction == -1
  {
    var declared := Declared(packet);
    var frame := DataFrame(packet, declared);
    var lo, hi := packet[declared - 2], packet[declared - 1];
    assert Slice(packet, declared - 2, declared) == [lo, hi];
    assert Protected(packet) == frame + [lo, hi];
    Crc.TrailerChecks(frame, lo, hi);
  }

  lemma SameHeader(packet: seq<byte>, other: seq<byte>)
    requires |packet| == |other| >= 20 && packet[..20] == other[..20]
    ensures packet[..2] == other[..2] && packet[4..6] == other[4..6] && packet[7] == other[7]
    ensures Declared(packet) == Declared(other)
  {
    assert packet[..20][..2] == packet[..2] && other[..20][..2] == other[..2];
    assert packet[..20][4..6] == packet[4..6] && other[..20][4..6] == other[4..6];
    assert packet[..20][7] == packet[7] && other[..20][7] == other[7];
  }

  /**
   * A burst of up to sixteen flipped bits anywhere in the protected bytes of an accepted packet, the CRC
   * itself included, makes the parser report a packet error and read no register.
   */
  lemma CorruptionRejected(packet: seq<byte>, damaged: seq<byte>, i: nat, k: bv8)
    requires AcceptedTranslated(packet) && |damaged| == |packet|
    requires |packet| >= 20 && damaged[..20] == packet[..20]
    requires i < |Protected(packet)|
    requires Crc.DifferByBurst(Protected(packet), Slice(damaged, 20, Declared(packet)), i, k)
    ensures Parse(damaged).packetError && !Parse(damaged).raised && Parse(damaged).deviceFunction == -1
  {
    AcceptedHasZeroResidue(packet);
    SameHeader(packet, damaged);
    Crc.BurstDetected(Protected(packet), Protected(damaged), i, k);
    NonzeroResidueRejected(damaged);
  }
}
