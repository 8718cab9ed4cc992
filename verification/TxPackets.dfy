/**
 The packets a TX stream sends, octet by octet: IPv4, UDP and RTP headers and the samples of all
 channels.  The hardware builds them from the stream record; the driver has to tell it their length.
 */
module TxPackets {
  import opened MachineWords
  import opened OctetStrings
  import opened StreamCommon
  import opened TxStreams

  // ------------------------------------------------------------------------------------------
  // Samples
  // ------------------------------------------------------------------------------------------

  /** Bits in a sample of a linear codec. */
  function Bits(codec: nat): nat
    requires codec in {L32, L24, L16}
  {
    if codec == L32 then 32 else if codec == L24 then 24 else 16
  }

  function TwoTo(bits: nat): nat {
    if bits == 0 then 1 else 2 * TwoTo(bits - 1)
  }

  /** The octets of one sample; an AM824 sample is a pair of four-octet subframes. */
  function SampleOctets(codec: nat, value: nat): seq<Byte>
    requires codec < CODEC_MAX
  {
    if codec == AM824 then Octets(value, 4 + 4) else Octets(value, Bits(codec) / 8)
  }

  lemma PowersOfTwo()
    ensures TwoTo(16) == Power(2) && TwoTo(24) == Power(3) && TwoTo(32) == Power(4)
  {
    assert TwoTo(8) == 0x100;
    assert TwoTo(16) == 0x1_0000;
    assert TwoTo(24) == 0x100_0000;
    assert TwoTo(32) == 0x1_0000_0000;
    assert Power(2) == 0x1_0000;
    assert Power(3) == 0x100_0000;
    assert Power(4) == 0x1_0000_0000;
  }

  /** Every value of a linear codec comes back from its octets, and their number is what the driver
      reckons with. */
  lemma SampleReadsBack(codec: nat, value: nat)
    requires codec in {L32, L24, L16} && value < TwoTo(Bits(codec))
    ensures Number(SampleOctets(codec, value)) == value
    ensures |SampleOctets(codec, value)| == SampleLength(codec)
  {
    PowersOfTwo();
    OctetsReadBack(value, Bits(codec) / 8);
  }

  /** The code the hardware gets for a linear codec is the number of bits. */
  lemma CodeIsBits(codec: nat)
    requires codec in {L32, L24, L16}
    ensures CodecCode(codec) == Bits(codec) == 8 * SampleLength(codec)
  {
  }

  /** Samples of all channels at one time. */
  function FrameOctets(codec: nat, frame: seq<nat>): seq<Byte>
    requires codec < CODEC_MAX
  {
    if frame == [] then [] else FrameOctets(codec, frame[..|frame| - 1]) + SampleOctets(codec, frame[|frame| - 1])
  }

  function Payload(codec: nat, frames: seq<seq<nat>>): seq<Byte>
    requires codec < CODEC_MAX
  {
    if frames == [] then [] else Payload(codec, frames[..|frames| - 1]) + FrameOctets(codec, frames[|frames| - 1])
  }

  lemma {:induction false} FrameLength(codec: nat, frame: seq<nat>)
    requires codec < CODEC_MAX
    ensures |FrameOctets(codec, frame)| == |frame| * SampleLength(codec)
    decreases |frame|
  {
    if frame != [] {
      FrameLength(codec, frame[..|frame| - 1]);
    }
  }

  lemma {:induction false} PayloadLength(codec: nat, frames: seq<seq<nat>>, channels: nat)
    requires codec < CODEC_MAX && forall f | f in frames :: |f| == channels
    ensures |Payload(codec, frames)| == |frames| * (channels * SampleLength(codec))
    decreases |frames|
  {
    if frames != [] {
      var init, last := frames[..|frames| - 1], frames[|frames| - 1];
      PayloadLength(codec, init, channels);
      FrameLength(codec, last);
      OneMoreFrame(|init|, channels * SampleLength(codec));
    }
  }

  lemma OneMoreFrame(n: nat, size: nat)
    ensures n * size + size == (n + 1) * size
  {
  }

  // ------------------------------------------------------------------------------------------
  // Headers
  // ------------------------------------------------------------------------------------------

  /** What is not in the record: counters and checksums. */
  datatype Counters = Counters(identification: nat, ipChecksum: nat, udpChecksum: nat, timestamp: nat)

  /** Section 3.1 of RFC 791, without options. */
  function Ipv4Header(i: Interface, d: Details, c: Counters): (h: seq<Byte>)
    ensures |h| == 20
  {
    [0x45, d.dscp * 4 % 0x100] + Octets(d.ipLength, 2)
    + Octets(c.identification, 2) + [0, 0]
    + [d.ttl % 0x100, 17] + Octets(c.ipChecksum, 2)
    + Octets(i.sourceIp, 4)
    + Octets(i.destinationIp, 4)
  }

  /** RFC 768. */
  function UdpHeader(i: Interface, d: Details, c: Counters): (h: seq<Byte>)
    ensures |h| == 8
  {
    Octets(i.sourcePort, 2) + Octets(i.destinationPort, 2)
    + Octets(if d.ipLength >= 20 then d.ipLength - 20 else 0, 2) + Octets(c.udpChecksum, 2)
  }

  /** Section 5.1 of RFC 3550, without contributing sources. */
  function RtpHeader(d: Details, c: Counters): (h: seq<Byte>)
    ensures |h| == 12
  {
    [0x80, d.payloadType % 0x80] + Octets(d.nextSequence, 2) + Octets(c.timestamp, 4) + Octets(d.ssrc, 4)
  }

  /** A packet of a stream on one of its interfaces, as its record tells the hardware to build it. */
  function PacketOf(r: Record, i: Interface, codec: nat, frames: seq<seq<nat>>, c: Counters): seq<Byte>
    requires codec < CODEC_MAX
  {
    Ipv4Header(i, r.details, c) + UdpHeader(i, r.details, c) + RtpHeader(r.details, c) + Payload(codec, frames)
  }

  /** The samples of one packet: as many frames as the stream has samples, each with all channels. */
  predicate Fits(s: Stream, frames: seq<seq<nat>>) {
    |frames| == s.numSamples && forall f | f in frames :: |f| == s.numChannels
  }

  lemma Commute(a: nat, b: nat, c: nat)
    ensures a * (b * c) == b * a * c
  {
  }

  lemma SamplesLength(s: Stream, frames: seq<seq<nat>>)
    requires s.codec < CODEC_MAX && Fits(s, frames)
    ensures 40 + |Payload(s.codec, frames)| == IpLength(s)
  {
    PayloadLength(s.codec, frames, s.numChannels);
    Commute(s.numSamples, s.numChannels, SampleLength(s.codec));
  }

  /** The driver's length is the length of the packet. */
  lemma PacketLength(e: Elem, i: Interface, frames: seq<seq<nat>>, c: Counters)
    requires e.stream.codec < CODEC_MAX && Fits(e.stream, frames)
    ensures |PacketOf(RecordOf(e), i, e.stream.codec, frames, c)| == IpLength(e.stream)
  {
    SamplesLength(e.stream, frames);
  }

  lemma LengthInRecord(e: Elem, maxTracks: nat)
    requires Acceptable(e.stream, maxTracks)
    ensures RecordOf(e).details.ipLength == IpLength(e.stream) <= 1460
  {
    SmallFits(IpLength(e.stream));
  }

  lemma SmallFits(x: nat)
    requires x <= 1460
    ensures x % 0x1_0000 == x
  {
  }

  lemma LengthField(i: Interface, d: Details, c: Counters, rest: seq<Byte>)
    requires d.ipLength < 0x1_0000
    ensures Number((Ipv4Header(i, d, c) + rest)[2..4]) == d.ipLength
  {
    assert Power(2) == 0x1_0000;
    OctetsReadBack(d.ipLength, 2);
    assert (Ipv4Header(i, d, c) + rest)[2..4] == Octets(d.ipLength, 2);
  }

  /** A packet of an acceptable stream carries its own length in the total length field of its IP header,
      and is at most 1460 octets long. */
  lemma PacketCarriesItsLength(e: Elem, maxTracks: nat, i: Interface, frames: seq<seq<nat>>, c: Counters)
    requires Acceptable(e.stream, maxTracks) && Fits(e.stream, frames)
    ensures var packet := PacketOf(RecordOf(e), i, e.stream.codec, frames, c);
            4 <= |packet| <= 1460 && Number(packet[2..4]) == |packet|
  {
    LengthInRecord(e, maxTracks);
    PacketLength(e, i, frames, c);
    FieldInPacket(RecordOf(e), i, e.stream.codec, frames, c);
  }

  lemma FieldInPacket(r: Record, i: Interface, codec: nat, frames: seq<seq<nat>>, c: Counters)
    requires codec < CODEC_MAX && r.details.ipLength < 0x1_0000
    ensures Number(PacketOf(r, i, codec, frames, c)[2..4]) == r.details.ipLength
  {
    var rest := UdpHeader(i, r.details, c) + RtpHeader(r.details, c) + Payload(codec, frames);
    assert PacketOf(r, i, codec, frames, c) == Ipv4Header(i, r.details, c) + rest;
    LengthField(i, r.details, c, rest);
  }

  /** A stream is accepted exactly if it is valid and its packets have at most 1460 octets. */
  lemma AcceptedExactly(e: Elem, maxTracks: nat, i: Interface, frames: seq<seq<nat>>, c: Counters)
    requires e.stream.codec < CODEC_MAX && Fits(e.stream, frames)
    ensures Acceptable(e.stream, maxTracks) <==>
            && ValidStream(e.stream, maxTracks)
            && |PacketOf(RecordOf(e), i, e.stream.codec, frames, c)| <= 1460
  {
    PacketLength(e, i, frames, c);
  }
}
