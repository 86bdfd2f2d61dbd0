/**
 The layout of a frame on the air: a radiotap header whose own length field sits in bytes 2 and
 3 (little endian), the 24-byte MAC header (section 9.2.3 of IEEE Std 802.11-2016), the payload,
 and four bytes of frame check sequence.
 */
module Wire {
  import opened Machine
  import opened Sequences

  const RADIOTAP_TX_LEN: nat := 12
  const MAC_HEADER_LEN: nat := 24
  const TX_HEADER_LEN: nat := RADIOTAP_TX_LEN + MAC_HEADER_LEN
  const FCS_LEN: nat := 4
  const MTU: nat := 2304
  const CONTROL_DATA_LEN: nat := 256
  const BLOCK_SIZE_MIN: nat := CONTROL_DATA_LEN + 1
  const BLOCK_SIZE_MAX: nat := 2048
  const PACKET_BUFFER_MAX: nat := 1024 * 1024 * 5
  const PREAMBLE_BYTE: byte := 0xff
  const EOT_BYTE: byte := 0xaa

  datatype ControlType = NoControl | Preamble | Eot

  function ItLen(f: seq<byte>): nat
    requires |f| >= 4
  {
    f[2] as int + 0x100 * f[3] as int
  }

  predicate WellFormed(f: seq<byte>) {
    |f| >= 4 && ItLen(f) + MAC_HEADER_LEN + FCS_LEN <= |f|
  }

  /** A captured frame whose headers fit; its length is the capture length. */
  type Frame = f: seq<byte> | WellFormed(f) witness Fill(MAC_HEADER_LEN + FCS_LEN, 0)

  function Payload(f: Frame): seq<byte> {
    f[ItLen(f) + MAC_HEADER_LEN..|f| - FCS_LEN]
  }

  /** The number packed into the last four bytes of the first address. */
  function FrameNumber(f: Frame): uint32 {
    BigEndian32(f[ItLen(f) + 6..ItLen(f) + 10])
  }

  predicate AllBytes(s: seq<byte>, v: byte) {
    forall i :: 0 <= i < |s| ==> s[i] == v
  }

  /** What a payload means to the receiver. */
  function Meaning(payload: seq<byte>): ControlType {
    if |payload| != CONTROL_DATA_LEN then NoControl
    else if AllBytes(payload, EOT_BYTE) then Eot
    else if AllBytes(payload, PREAMBLE_BYTE) then Preamble
    else NoControl
  }

  function Classify(f: Frame): ControlType {
    Meaning(Payload(f))
  }

  /** The two payloads that stand for control frames: 256 bytes of one control value, and nothing less. */
  predicate IsControlData(payload: seq<byte>) {
    payload == Fill(256, 0xff) || payload == Fill(256, 0xaa)
  }

  lemma MeaningExactly(payload: seq<byte>)
    ensures Meaning(payload) == Preamble <==> payload == Fill(256, 0xff)
    ensures Meaning(payload) == Eot <==> payload == Fill(256, 0xaa)
    ensures Meaning(payload) == NoControl <==> !IsControlData(payload)
  {
    if |payload| == 256 {
      assert AllBytes(payload, 0xff) <==> payload == Fill(256, 0xff);
      assert AllBytes(payload, 0xaa) <==> payload == Fill(256, 0xaa);
      assert Fill<byte>(256, 0xff)[0] != Fill<byte>(256, 0xaa)[0];
    }
  }

  /** Behind a radiotap header of any length its payload and the number in its first address are found. */
  lemma FrameParts(radiotap: seq<byte>, mac: seq<byte>, payload: seq<byte>, fcs: seq<byte>)
    requires |radiotap| >= 4 && |radiotap| == radiotap[2] as int + 256 * radiotap[3] as int
    requires |mac| == 24 && |fcs| == 4
    ensures var f := radiotap + mac + payload + fcs;
            && WellFormed(f) && Payload(f) == payload
            && FrameNumber(f) == mac[6] as int * 0x100_0000 + mac[7] as int * 0x1_0000 + mac[8] as int * 0x100
                                 + mac[9] as int
  {
    var f := radiotap + mac + payload + fcs;
    assert ItLen(f) == |radiotap|;
    assert f[|radiotap| + 6..|radiotap| + 10] == mac[6..10];
    assert f[|radiotap| + 24..|f| - 4] == payload;
  }

  /** A frame in the transmitter's layout whose only header fields are the radiotap length and the number. */
  function PlainFrame(number: uint32, payload: seq<byte>): (f: Frame)
    ensures Payload(f) == payload && FrameNumber(f) == number
    ensures |f| == TX_HEADER_LEN + |payload| + FCS_LEN
  {
    var head := [0, 0, 12, 0] + Fill(14, 0);
    var f := head + ToBigEndian32(number) + Fill(14, 0) + payload + Fill(FCS_LEN, 0);
    assert ItLen(f) == RADIOTAP_TX_LEN;
    assert f[18..22] == ToBigEndian32(number);
    BigEndian32RoundTrip(number);
    assert f[TX_HEADER_LEN..|f| - FCS_LEN] == payload;
    f
  }
}
