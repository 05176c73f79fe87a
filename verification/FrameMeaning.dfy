/** Which bytes make a frame count: the router's classes, read off the raw frame. */
module FrameMeaning {
  import opened Bytes
  import opened Response
  import opened SessionProtocol
  import opened WireTrace
  import Crc
  import Request

  /** Little-endian, at an offset. */
  function WordAt(frame: seq<byte>, i: nat): nat
    requires i + 2 <= |frame|
  {
    frame[i] as int + 256 * (frame[i + 1] as int)
  }

  /** A translated-data packet of this dongle and this inverter whose bytes behind the envelope have CRC zero. */
  predicate Addressed(frame: seq<byte>, dongle: seq<byte>, inverter: seq<byte>) {
    && |frame| >= 37 && frame[7] == 194 && frame[8..18] == dongle && frame[22..32] == inverter
    && Crc.Crc16(frame[20..]) == 0
  }

  /** In protocols 2 and 5 a length byte precedes the words; in the others there is one word and no length byte. */
  predicate Carries(frame: seq<byte>, values: seq<nat>)
    requires |frame| >= 37
  {
    var n := |values|;
    n > 0
    && if WordAt(frame, 2) == 2 || WordAt(frame, 2) == 5 then
         && frame[34] == 2 * n && 37 + 2 * n <= |frame|
         && forall i :: 0 <= i < n ==> values[i] == WordAt(frame, 35 + 2 * i)
       else n == 1 && |frame| >= 38 && values[0] == WordAt(frame, 34)
  }

  /** An answer to a read of the input registers from `start` on. */
  predicate AnswerBytes(frame: seq<byte>, dongle: seq<byte>, inverter: seq<byte>, start: nat, values: seq<nat>) {
    && Addressed(frame, dongle, inverter)
    && frame[20] == 1 && frame[21] == 4 && WordAt(frame, 18) == |frame| - 20
    && WordAt(frame, 32) == start && Carries(frame, values) && start + |values| <= 750
  }

  /** The refusal of a read of the input registers from `start` on. */
  predicate RejectionBytes(frame: seq<byte>, dongle: seq<byte>, inverter: seq<byte>, start: nat) {
    Addressed(frame, dongle, inverter) && frame[21] == 0x84 && WordAt(frame, 32) == start
  }

  // ---------- what parsing reads from an intact packet ----------

  predicate Intact(frame: seq<byte>) {
    |frame| >= 37 && Crc.Crc16(frame[20..]) == 0
  }

  lemma TrailerMatches(frame: seq<byte>)
    requires Framed(frame) && |frame| >= 37
    ensures DataFrame(frame, |frame|) == frame[20..|frame| - 2]
    ensures Crc.Crc16(DataFrame(frame, |frame|)) == Trailer(frame, |frame|) <==> Intact(frame)
  {
    var n := |frame|;
    var lo, hi := frame[n - 2], frame[n - 1];
    assert Slice(frame, n - 2, n) == [lo, hi];
    assert frame[20..] == frame[20..n - 2] + [lo, hi];
    Crc.TrailerChecks(frame[20..n - 2], lo, hi);
    hide Crc.Crc16;
  }

  lemma TwoByteWord(s: seq<byte>, frame: seq<byte>, i: nat)
    requires i + 2 <= |frame| && s == frame[i..i + 2]
    ensures LittleEndian(s) == WordAt(frame, i)
  {
  }

  /** The parser's verdict and the header, for any translated packet it can index. */
  lemma HeaderRead(frame: seq<byte>)
    requires Framed(frame) && |frame| >= 37 && frame[7] == 194
    ensures var p := Parse(frame);
            && p.tcpFunction == 194 && (p.packetError <==> !Intact(frame))
            && (Intact(frame) ==>
                  && p.protocol == WordAt(frame, 2) && p.dongle == frame[8..18] && p.dataLength == WordAt(frame, 18)
                  && p.frameLength == |frame| - 6)
    ensures Intact(frame) ==>
              Parse(frame) == ParseFrame(frame[20..|frame| - 2],
                                         BLANK.(protocol := WordAt(frame, 2), frameLength := |frame| - 6,
                                                tcpFunction := 194, dongle := frame[8..18],
                                                dataLength := WordAt(frame, 18)))
  {
    TrailerMatches(frame);
    TwoByteWord(frame[2..4], frame, 2);
    TwoByteWord(frame[18..20], frame, 18);
    assert |frame[20..|frame| - 2]| >= 15;
    hide LittleEndian, Crc.Crc16, Trailer, WordAt, Intact, DataFrame;
  }

  /** Every field of an intact translated packet, at its offset; a damaged one is a packet error. */
  lemma FieldsRead(frame: seq<byte>)
    requires Framed(frame) && |frame| >= 37 && frame[7] == 194 && Intact(frame)
    ensures var p := Parse(frame);
            && !p.raised && !p.packetError && p.tcpFunction == 194
            && p.protocol == WordAt(frame, 2) && p.dongle == frame[8..18] && p.dataLength == WordAt(frame, 18)
            && p.frameLength == |frame| - 6
            && p.addressAction == frame[20] && p.deviceFunction == frame[21] && p.serial == frame[22..32]
            && p.register == WordAt(frame, 32)
            && p.exception == if frame[21] >= 0x80 then frame[34] else 0
  {
    var d := frame[20..|frame| - 2];
    HeaderRead(frame);
    hide LittleEndian, Crc.Crc16, WordAt, Intact, Parse;
    SliceOfSlice(frame, 20, |frame| - 22, 2, 12);
    SliceOfSlice(frame, 20, |frame| - 22, 12, 14);
    TwoByteWord(d[12..14], frame, 32);
  }

  lemma {:induction false} WordsSpelled(value: seq<byte>, values: seq<nat>)
    requires |value| == 2 * |values|
    ensures Words(value) == values
       <==> forall i :: 0 <= i < |values| ==> values[i] == WordAt(value, 2 * i)
  {
    WordsLength(value);
    forall i: nat | i < |values| ensures Words(value)[i] == WordAt(value, 2 * i) {
      WordsAt(value, i);
    }
  }

  /** The words of an intact answer to a read, with or without a length byte in front. */
  lemma ValuesRead(frame: seq<byte>, values: seq<nat>)
    requires Framed(frame) && |frame| >= 37 && frame[7] == 194 && Intact(frame) && frame[21] == 4
    ensures var p := Parse(frame);
            Carries(frame, values) <==>
              && |values| > 0 && ValueList(p) == values
              && p.valueLength == 2 * |values| && |p.value| == p.valueLength
  {
    hide Crc.Crc16, Parse, ParseFrame, Carries, ValueList;
    HeaderRead(frame);
    PayloadCarries(frame, Parse(frame), values);
  }

  lemma PayloadCarries(frame: seq<byte>, p: Parsed, values: seq<nat>)
    requires |frame| >= 37 && frame[21] == 4
    requires p == ParseFrame(frame[20..|frame| - 2],
                             BLANK.(protocol := WordAt(frame, 2), frameLength := |frame| - 6, tcpFunction := 194,
                                    dongle := frame[8..18], dataLength := WordAt(frame, 18)))
    ensures Carries(frame, values) <==>
              && |values| > 0 && ValueList(p) == values
              && p.valueLength == 2 * |values| && |p.value| == p.valueLength
  {
    PayloadRead(frame, p);
    hide ParseFrame;
    if WordAt(frame, 2) == 2 || WordAt(frame, 2) == 5 {
      CountedWords(frame, frame[20..|frame| - 2], frame[34], values);
    } else {
      SingleWord(frame, frame[20..|frame| - 2], values);
    }
    hide Words, WordAt;
  }

  /** Where the value bytes of an answer to a read lie. */
  lemma PayloadRead(frame: seq<byte>, p: Parsed)
    requires |frame| >= 37 && frame[21] == 4
    requires p == ParseFrame(frame[20..|frame| - 2],
                             BLANK.(protocol := WordAt(frame, 2), frameLength := |frame| - 6, tcpFunction := 194,
                                    dongle := frame[8..18], dataLength := WordAt(frame, 18)))
    ensures p.exception == 0
    ensures var d := frame[20..|frame| - 2];
            if WordAt(frame, 2) == 2 || WordAt(frame, 2) == 5
            then p.valueLength == frame[34] && p.value == Slice(d, 15, 15 + (frame[34] as int))
            else p.valueLength == 2 && p.value == Slice(d, 14, 16)
  {
    var d := frame[20..|frame| - 2];
    assert d[14] == frame[34] && d[1] == frame[21];
    hide WordAt, LittleEndian;
  }

  lemma CountedWords(frame: seq<byte>, d: seq<byte>, k: nat, values: seq<nat>)
    requires |frame| >= 37 && d == frame[20..|frame| - 2] && k == frame[34]
    ensures |Slice(d, 15, 15 + k)| == k <==> 37 + k <= |frame|
    ensures k == 2 * |values| && 37 + k <= |frame| ==>
              (Words(Slice(d, 15, 15 + k)) == values
               <==> forall i :: 0 <= i < |values| ==> values[i] == WordAt(frame, 35 + 2 * i))
  {
    if k == 2 * |values| && 37 + k <= |frame| {
      var value := Slice(d, 15, 15 + k);
      SliceOfSlice(frame, 20, |frame| - 22, 15, 15 + k);
      assert value == d[15..15 + k] == frame[35..35 + k];
      WordsSpelled(value, values);
      forall i: nat | i < |values| ensures WordAt(value, 2 * i) == WordAt(frame, 35 + 2 * i) {
      }
    }
  }

  lemma SingleWord(frame: seq<byte>, d: seq<byte>, values: seq<nat>)
    requires |frame| >= 37 && d == frame[20..|frame| - 2]
    ensures |Slice(d, 14, 16)| == 2 <==> |frame| >= 38
    ensures |values| == 1 && |frame| >= 38 ==> (Words(Slice(d, 14, 16)) == values <==> values[0] == WordAt(frame, 34))
  {
    if |values| == 1 && |frame| >= 38 {
      var value := Slice(d, 14, 16);
      SliceOfSlice(frame, 20, |frame| - 22, 14, 16);
      assert value == d[14..16] == frame[34..36];
      WordsSpelled(value, values);
      assert WordAt(value, 0) == WordAt(frame, 34);
    }
  }

  // ---------- the router's classes ----------

  /** An intact frame of the right function, and what the router asks of it further. */
  lemma TargetedExactly(frame: seq<byte>, dongle: seq<byte>, inverter: seq<byte>)
    requires Framed(frame)
    ensures Targeted(Parse(frame), dongle, inverter) <==> Addressed(frame, dongle, inverter)
  {
    if |frame| >= 37 && frame[7] == 194 {
      HeaderRead(frame);
      if Intact(frame) {
        FieldsRead(frame);
      }
      hide Crc.Crc16, Parse;
    } else {
      hide Crc.Crc16;
    }
  }

  lemma NoOtherFields(frame: seq<byte>)
    requires Framed(frame) && (|frame| < 37 || frame[7] != 194)
    ensures Parse(frame).tcpFunction == 194 ==> Parse(frame).packetError
    ensures !Parse(frame).packetError && Parse(frame).tcpFunction == 193 <==> |frame| >= 19 && frame[7] == 193
  {
  }

  /** A response the router may use, field by field. */
  lemma WellShapedExactly(frame: seq<byte>, dongle: seq<byte>, inverter: seq<byte>, start: nat, values: seq<nat>)
    requires Framed(frame) && Addressed(frame, dongle, inverter)
    ensures var p := Parse(frame);
            WellShaped(p) && p.register == start && ValueList(p) == values
            <==> AnswerBytes(frame, dongle, inverter, start, values)
  {
    hide Crc.Crc16, Parse;
    FieldsRead(frame);
    if frame[21] == 4 {
      ValuesRead(frame, values);
    }
    hide Carries, ValueList, WordAt;
  }

  /**
   * A complete frame is used as an answer for `start` and `values` if and only if its bytes say so: whom it is from,
   * what it answers, which words it carries, and a CRC of zero over everything behind the envelope.
   */
  lemma AnswerExactly(frame: seq<byte>, dongle: seq<byte>, inverter: seq<byte>, start: nat, values: seq<nat>)
    requires Framed(frame)
    ensures Classify(frame, dongle, inverter) == Fc4(start, values)
       <==> AnswerBytes(frame, dongle, inverter, start, values)
  {
    TargetedExactly(frame, dongle, inverter);
    if Addressed(frame, dongle, inverter) {
      FieldsRead(frame);
      WellShapedExactly(frame, dongle, inverter, start, values);
    } else if |frame| < 37 || frame[7] != 194 {
      NoOtherFields(frame);
    }
    hide Crc.Crc16, Parse, Targeted, WellShaped, ValueList, Carries, WordAt;
  }

  /** And as the refusal of a read from `start` on, in the same terms. */
  lemma RejectionExactly(frame: seq<byte>, dongle: seq<byte>, inverter: seq<byte>, start: nat)
    requires Framed(frame)
    ensures Classify(frame, dongle, inverter) == Rejection(start) <==> RejectionBytes(frame, dongle, inverter, start)
  {
    TargetedExactly(frame, dongle, inverter);
    if Addressed(frame, dongle, inverter) {
      FieldsRead(frame);
    } else if |frame| < 37 || frame[7] != 194 {
      NoOtherFields(frame);
    }
    hide Crc.Crc16, Parse, Targeted, WellShaped, ValueList, WordAt;
  }

  /** Function-193 frames are told by their type and length alone; everything else is of no use. */
  lemma OthersExactly(frame: seq<byte>, dongle: seq<byte>, inverter: seq<byte>)
    requires Framed(frame)
    ensures Classify(frame, dongle, inverter) == Fc193 <==> |frame| >= 19 && frame[7] == 193
  {
    if |frame| < 37 || frame[7] != 194 {
      NoOtherFields(frame);
    } else {
      HeaderRead(frame);
    }
    hide Crc.Crc16, Parse, Targeted, WellShaped, ValueList;
  }

  /** Routing a frame of the current generation logs an observation exactly when its bytes are an answer: that one. */
  lemma RoutedBytes(s: State, frame: seq<byte>, dongle: seq<byte>, inverter: seq<byte>, at: int, g: nat)
    requires Framed(frame)
    ensures var t := Route(s, Routed(Classify(frame, dongle, inverter), at), g);
            && (t.log == s.log || (|t.log| == |s.log| + 1 && t.log[..|s.log|] == s.log))
            && (|t.log| > |s.log| ==>
                  g == s.generation
                  && var a := t.log[|s.log|];
                     a.at == at && a.generation == g && AnswerBytes(frame, dongle, inverter, a.start, a.values))
            && (g == s.generation ==>
                  forall start, values :: AnswerBytes(frame, dongle, inverter, start, values) ==>
                    |t.log| > |s.log| && t.log[|s.log|].start == start && t.log[|s.log|].values == values)
  {
    hide AnswerBytes, Classify;
    var c := Classify(frame, dongle, inverter);
    if c.Fc4? {
      AnswerExactly(frame, dongle, inverter, c.start, c.values);
    }
    forall start, values | AnswerBytes(frame, dongle, inverter, start, values)
      ensures c == Fc4(start, values)
    {
      AnswerExactly(frame, dongle, inverter, start, values);
    }
    RouteAppends(s, Routed(c, at), g);
    hide Route;
  }

  lemma RouteAppends(s: State, f: Routed, g: nat)
    ensures var t := Route(s, f, g);
            if g == s.generation && f.frame.Fc4? then
              && |t.log| == |s.log| + 1 && t.log[..|s.log|] == s.log
              && var a := t.log[|s.log|];
                 a.at == f.at && a.generation == g && a.start == f.frame.start && a.values == f.frame.values
            else t.log == s.log
  {
  }

  // ---------- refusals as the inverter builds them ----------

  function ExceptionFrame(serial: seq<byte>, start: nat, code: byte): seq<byte>
    requires start < 0x1_0000
  {
    [1, 0x84] + serial + TwoBytes(start) + [code]
  }

  /** The exception answer to an FC4 read from `start` on. */
  function ExceptionPacket(protocol: nat, dongle: seq<byte>, serial: seq<byte>, start: nat, code: byte): seq<byte>
    requires protocol < 0x1_0000 && |dongle| == 10 && |serial| == 10 && start < 0x1_0000
  {
    var frame := ExceptionFrame(serial, start, code);
    PREFIX + TwoBytes(protocol) + TwoBytes(31) + [1, 194] + dongle + TwoBytes(17) + frame
      + TwoBytes(Crc.Crc16(frame))
  }

  lemma ExceptionFields(p: seq<byte>, protocol: nat, dongle: seq<byte>, serial: seq<byte>, start: nat, code: byte)
    requires protocol < 0x1_0000 && |dongle| == 10 && |serial| == 10 && start < 0x1_0000
    requires p == ExceptionPacket(protocol, dongle, serial, start, code)
    ensures |p| == 37 && Framed(p) && p[7] == 194 && p[8..18] == dongle
    ensures p[20..35] == ExceptionFrame(serial, start, code)
    ensures LittleEndian(p[35..37]) == Crc.Crc16(p[20..35])
  {
    var head := PREFIX + TwoBytes(protocol) + TwoBytes(31) + [1, 194];
    var frame := ExceptionFrame(serial, start, code);
    FiveParts(p, head, dongle, TwoBytes(17), frame, TwoBytes(Crc.Crc16(frame)));
    FiveParts(head, PREFIX, TwoBytes(protocol), TwoBytes(31), [1], [194]) by {
      assert [1, 194] == [1] + [194];
    }
    SliceOfFront(p, 8, 0, 2);
    SliceOfFront(p, 8, 4, 6);
    SliceOfFront(p, 8, 7, 8);
    assert |p| == 37 && p[7..8] == [p[7]] && p[35..37] == p[35..];
    hide Crc.Crc16;
  }

  /** Such an answer parses to its register and its code, carries no values, and is routed as a refusal. */
  lemma ExceptionRoundTrip(p: seq<byte>, protocol: nat, dongle: seq<byte>, serial: seq<byte>, start: nat, code: byte)
    requires protocol < 0x1_0000 && |dongle| == 10 && |serial| == 10 && start < 0x1_0000
    requires p == ExceptionPacket(protocol, dongle, serial, start, code)
    ensures var r := Parse(p);
            !r.packetError && r.register == start && r.exception == code && r.deviceFunction == 0x84
            && ValueList(r) == []
    ensures Classify(p, dongle, serial) == Rejection(start)
  {
    ExceptionFields(p, protocol, dongle, serial, start, code);
    TrailerMatches(p);
    ExceptionTrailer(p);
    ExceptionSpelled(p, serial, start, code);
    FieldsRead(p);
    NoValues(p);
    hide Crc.Crc16, Parse, ExceptionPacket, ExceptionFrame, LittleEndian;
    RejectionExactly(p, dongle, serial, start);
  }

  lemma ExceptionTrailer(p: seq<byte>)
    requires |p| == 37 && LittleEndian(p[35..37]) == Crc.Crc16(p[20..35])
    ensures Crc.Crc16(DataFrame(p, 37)) == Trailer(p, 37)
  {
    assert Slice(p, 35, 37) == p[35..37] && Slice(p, 20, 35) == p[20..35];
    hide Crc.Crc16;
  }

  lemma ExceptionSpelled(p: seq<byte>, serial: seq<byte>, start: nat, code: byte)
    requires |p| == 37 && |serial| == 10 && start < 0x1_0000 && p[20..35] == ExceptionFrame(serial, start, code)
    ensures p[21] == 0x84 && p[22..32] == serial && WordAt(p, 32) == start && p[34] == code
  {
    var frame := p[20..35];
    FiveParts(frame, [1], [0x84], serial, TwoBytes(start), [code]) by {
      assert [1] + [0x84] == [1, 0x84];
    }
    SliceOfSlice(p, 20, 15, 2, 12);
    SliceOfSlice(p, 20, 15, 12, 14);
    assert frame[1..2] == [frame[1]] && frame[14..] == [frame[14]];
    TwoByteWord(p[32..34], p, 32);
  }

  lemma NoValues(p: seq<byte>)
    requires Framed(p) && |p| >= 37 && p[7] == 194 && Intact(p) && p[21] >= 0x80
    ensures ValueList(Parse(p)) == []
  {
    HeaderRead(p);
    hide Crc.Crc16, Parse;
  }
}
