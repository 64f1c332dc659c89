/** The binary form of multiplexed frames: a big-endian stream id, a type byte, the data. */
module FrameCodec {
  import opened Numerals

  const FRAME_HEADER_SIZE: nat := 5
  const STREAM_ID_BYTES: nat := 4

  datatype FrameType = Process | Conclusion
  {
    function Code(): nat {
      if Process? then 0 else 1
    }
  }

  datatype Frame = Frame(stream: nat, kind: FrameType, data: seq<nat>)
  {
    predicate Encodable() {
      stream < Pow(256, STREAM_ID_BYTES) && AreDigits(256, data)
    }
  }

  datatype Decoding = Decoded(frame: Frame) | Corrupted | InvalidType(code: nat)

  function Encode(frame: Frame): (bytes: seq<nat>)
    requires frame.Encodable()
    ensures AreDigits(256, bytes)
  {
    Digits(256, frame.stream, STREAM_ID_BYTES) + [frame.kind.Code()] + frame.data
  }

  function Decode(bytes: seq<nat>): Decoding
    requires AreDigits(256, bytes)
  {
    if |bytes| < FRAME_HEADER_SIZE then Corrupted
    else if bytes[4] > 1 then InvalidType(bytes[4])
    else Decoded(Frame(Value(256, bytes[..4]), if bytes[4] == 0 then Process else Conclusion, bytes[5..]))
  }

  lemma DecodeEncode(frame: Frame)
    requires frame.Encodable()
    ensures Decode(Encode(frame)) == Decoded(frame)
  {
    var bytes := Encode(frame);
    ValueOfDigits(256, frame.stream, STREAM_ID_BYTES);
    assert bytes[..4] == Digits(256, frame.stream, STREAM_ID_BYTES);
    assert bytes[5..] == frame.data;
  }

  /** Nothing is lost: an accepted message is the encoding of what it decodes to. */
  lemma EncodeDecode(bytes: seq<nat>)
    requires AreDigits(256, bytes) && Decode(bytes).Decoded?
    ensures Decode(bytes).frame.Encodable() && Encode(Decode(bytes).frame) == bytes
  {
    var id := bytes[..4];
    ValueFits(256, id);
    DigitsOfValue(256, id);
    assert bytes == id + [bytes[4]] + bytes[5..];
  }

  /** The bytes on the wire: the id from its most significant byte on, 0 or 1 for the type, then the data. */
  lemma EncodedLayout(frame: Frame)
    requires frame.Encodable()
    ensures var b := Encode(frame);
      && |b| == 5 + |frame.data|
      && b[0] * 16_777_216 + b[1] * 65_536 + b[2] * 256 + b[3] == frame.stream
      && (if frame.kind.Process? then b[4] == 0 else b[4] == 1)
      && forall i :: 0 <= i < |frame.data| ==> b[5 + i] == frame.data[i]
  {
    var d := Digits(256, frame.stream, STREAM_ID_BYTES);
    ValueOfDigits(256, frame.stream, STREAM_ID_BYTES);
    FourBytes(d);
  }

  lemma FourBytes(d: seq<nat>)
    requires |d| == 4
    ensures Value(256, d) == d[0] * 16_777_216 + d[1] * 65_536 + d[2] * 256 + d[3]
  {
    assert d[..3][..2] == d[..2] && d[..2][..1] == d[..1] && d[..1][..0] == [];
    assert Value(256, d[..1]) == d[0];
    assert Value(256, d[..2]) == d[0] * 256 + d[1];
    assert Value(256, d[..3]) == (d[0] * 256 + d[1]) * 256 + d[2];
  }

  /** Which messages are refused, and how. */
  lemma DecodeRefusedExactly(bytes: seq<nat>)
    requires AreDigits(256, bytes)
    ensures Decode(bytes).Corrupted? <==> |bytes| < 5
    ensures Decode(bytes).InvalidType? <==> |bytes| >= 5 && bytes[4] != 0 && bytes[4] != 1
    ensures Decode(bytes).InvalidType? ==> Decode(bytes).code == bytes[4]
  {
  }

  /** `encode_frame` fills a buffer of the header and payload size. */
  method EncodeFrame(frame: Frame) returns (buffer: array<nat>)
    requires frame.Encodable()
    ensures fresh(buffer) && buffer[..] == Encode(frame)
  {
    buffer := new nat[FRAME_HEADER_SIZE + |frame.data|](_ => 0);
    var header := Digits(256, frame.stream, STREAM_ID_BYTES);
    for i := 0 to STREAM_ID_BYTES
      invariant forall k :: 0 <= k < i ==> buffer[k] == header[k]
    {
      buffer[i] := header[i];
    }
    buffer[STREAM_ID_BYTES] := frame.kind.Code();
    for i := 0 to |frame.data|
      invariant forall k :: 0 <= k < STREAM_ID_BYTES ==> buffer[k] == header[k]
      invariant buffer[STREAM_ID_BYTES] == frame.kind.Code()
      invariant forall k :: 0 <= k < i ==> buffer[FRAME_HEADER_SIZE + k] == frame.data[k]
    {
      buffer[FRAME_HEADER_SIZE + i] := frame.data[i];
    }
    assert buffer[..] == Encode(frame);
  }
}
