/**
 * The request frame of the MultiWii Serial Protocol, version 1, as the flight
 * pilot writes it (src/Pilot.cpp, sendMsp and sendRC):
 *   '$' 'M' '<' size command payload[size] checksum
 * where the checksum is the XOR of size, command and every payload byte, and
 * the MSP_SET_RAW_RC payload is eight little-endian 16-bit channels. The
 * decoders are the reading side, stated so that the round trips can be proved.
 */
module MspSpec {
  import opened Wrappers

  /** Command number of MSP_SET_RAW_RC. */
  const MSP_SET_RAW_RC: bv8 := 200
  /** Value sent on the three unused RC channels. */
  const UNUSED_CHANNEL: bv16 := 1000
  /** '$', 'M', '<': the preamble of a request to the flight controller. */
  const HEADER: seq<bv8> := [0x24, 0x4D, 0x3C]
  /** Payload size of MSP_SET_RAW_RC: eight 16-bit channels. */
  const RC_PAYLOAD_LEN: bv8 := 16

  /** v & 0xFF */
  function Lo(v: bv16): bv8
  {
    (v & 0xFF) as bv8
  }

  /** v >> 8, as a byte */
  function Hi(v: bv16): bv8
  {
    (v >> 8) as bv8
  }

  /** The 16-bit value of a little-endian (low, high) byte pair. */
  function Word(lo: bv8, hi: bv8): bv16
  {
    (hi as bv16 << 8) | lo as bv16
  }

  /** a ^ b on bytes. */
  function Xor(a: bv8, b: bv8): bv8
  {
    a ^ b
  }

  /** XOR of the first k bytes of s, folded from the left as the checksum loop does. */
  function XorUpTo(s: seq<bv8>, k: nat): bv8
    requires k <= |s|
  {
    if k == 0 then 0 else Xor(XorUpTo(s, k - 1), s[k - 1])
  }

  /** XOR of all bytes of s. */
  function XorAll(s: seq<bv8>): bv8
  {
    XorUpTo(s, |s|)
  }

  /** The fold over a prefix depends on that prefix only. */
  lemma {:induction false} XorUpToPrefix(s: seq<bv8>, t: seq<bv8>, k: nat)
    requires k <= |s| && k <= |t| && s[..k] == t[..k]
    ensures XorUpTo(s, k) == XorUpTo(t, k)
  {
    if k > 0 {
      assert s[k - 1] == s[..k][k - 1] && t[k - 1] == t[..k][k - 1];
      assert s[..k - 1] == s[..k][..k - 1] && t[..k - 1] == t[..k][..k - 1];
      XorUpToPrefix(s, t, k - 1);
    }
  }

  lemma XorAllSnoc(s: seq<bv8>, b: bv8)
    ensures XorAll(s + [b]) == Xor(XorAll(s), b)
  {
    assert (s + [b])[..|s|] == s[..|s|];
    XorUpToPrefix(s + [b], s, |s|);
  }

  /** The checksum sendMsp appends: size ^ command ^ payload[0] ^ ... */
  function Checksum(n: bv8, cmd: bv8, payload: seq<bv8>): bv8
  {
    XorAll([n, cmd] + payload)
  }

  /** Appending the next element of p to a prefix of it. */
  lemma AppendNext(start: seq<bv8>, p: seq<bv8>, i: nat)
    requires i < |p|
    ensures start + p[..i + 1] == (start + p[..i]) + [p[i]]
  {
    assert p[..i + 1] == p[..i] + [p[i]];
  }

  /** The checksum of an empty payload is 0 ^ size ^ command. */
  lemma ChecksumEmpty(n: bv8, cmd: bv8, payload: seq<bv8>)
    ensures Checksum(n, cmd, payload[..0]) == Xor(Xor(0, n), cmd)
  {
    var body := [n, cmd] + payload[..0];
    assert body[0] == n && body[1] == cmd;
    assert XorUpTo(body, 1) == Xor(0, n);
  }

  /** One more payload byte XORs into the running checksum. */
  lemma ChecksumStep(n: bv8, cmd: bv8, payload: seq<bv8>, i: nat)
    requires i < |payload|
    ensures Checksum(n, cmd, payload[..i + 1]) == Xor(Checksum(n, cmd, payload[..i]), payload[i])
  {
    var body := [n, cmd] + payload[..i + 1];
    assert body[..i + 2] == [n, cmd] + payload[..i];
    XorUpToPrefix(body, [n, cmd] + payload[..i], i + 2);
  }

  /** The bytes sendMsp(cmd, payload, n) writes for one request of n payload bytes. */
  function MspFrame(cmd: bv8, n: bv8, payload: seq<bv8>): (f: seq<bv8>)
    requires |payload| == n as int
    ensures |f| == n as int + 6
  {
    HEADER + [n, cmd] + payload + [Checksum(n, cmd, payload)]
  }

  /**
   * Output that grew by the preamble, the size, the command, the payload and
   * the payload's checksum, in that order, grew by exactly one frame.
   */
  lemma AppendFrame(before: seq<bv8>, after: seq<bv8>, cmd: bv8, n: bv8, payload: seq<bv8>, c: bv8)
    requires |payload| == n as int && c == Checksum(n, cmd, payload)
    requires after == before + HEADER + [n] + [cmd] + payload + [c]
    ensures after == before + MspFrame(cmd, n, payload)
  {
    var head := HEADER + [n, cmd];
    assert HEADER + [n] + [cmd] == head;
    assert before + HEADER + [n] + [cmd] == before + head;
    assert (before + head) + payload + [c] == before + (head + payload + [c]);
  }

  /** The frame is header, size, command, payload and checksum, in that order. */
  lemma MspFrameLayout(cmd: bv8, n: bv8, payload: seq<bv8>)
    requires |payload| == n as int
    ensures var f := MspFrame(cmd, n, payload);
            && f[..3] == HEADER
            && f[3] == n && f[4] == cmd
            && f[5..5 + n as int] == payload
            && f[5 + n as int] == XorAll([n, cmd] + payload)
  {
    var f := MspFrame(cmd, n, payload);
    assert f[..3] == HEADER;
    assert f[5..5 + n as int] == payload;
  }

  /** The XOR of every byte after the preamble (size through checksum) is 0. */
  lemma ChecksumCancels(cmd: bv8, n: bv8, payload: seq<bv8>)
    requires |payload| == n as int
    ensures XorAll(MspFrame(cmd, n, payload)[3..]) == 0
  {
    var body := [n, cmd] + payload;
    var c := Checksum(n, cmd, payload);
    assert MspFrame(cmd, n, payload)[3..] == body + [c];
    XorAllSnoc(body, c);
  }

  datatype Message = Message(cmd: bv8, payload: seq<bv8>)

  /** Reads one request frame; None for a bad preamble, length or checksum. */
  function DecodeMsp(f: seq<bv8>): (m: Option<Message>)
    ensures m.Some? ==> |f| >= 6 && |m.value.payload| == f[3] as int
  {
    if |f| < 6 || f[..3] != HEADER then None
    else
      var n := f[3];
      if |f| != n as int + 6 then None
      else
        var payload := f[5..5 + n as int];
        if f[5 + n as int] != Checksum(n, f[4], payload) then None
        else Some(Message(f[4], payload))
  }

  /** Decoding an encoded frame gives back its command and payload. */
  lemma DecodeEncode(cmd: bv8, n: bv8, payload: seq<bv8>)
    requires |payload| == n as int
    ensures DecodeMsp(MspFrame(cmd, n, payload)) == Some(Message(cmd, payload))
  {
    MspFrameLayout(cmd, n, payload);
  }

  /** Every frame the decoder accepts is exactly the encoding of what it read. */
  lemma EncodeDecode(f: seq<bv8>)
    requires DecodeMsp(f).Some?
    ensures MspFrame(DecodeMsp(f).value.cmd, f[3], DecodeMsp(f).value.payload) == f
  {
    var m := DecodeMsp(f).value;
    var n := f[3] as int;
    var g := MspFrame(m.cmd, f[3], m.payload);
    assert |g| == |f|;
    forall i | 0 <= i < |f|
      ensures g[i] == f[i]
    {
      if i < 3 {
        assert f[i] == f[..3][i];
      } else if 5 <= i < 5 + n {
        assert f[i] == m.payload[i - 5];
      }
    }
  }

  /** The sixteen payload bytes sendRC fills: roll, pitch, throttle, yaw, aux1, then three unused channels. */
  function RcPayload(roll: bv16, pitch: bv16, throttle: bv16, yaw: bv16, aux1: bv16): (p: seq<bv8>)
    ensures |p| == 16
  {
    [Lo(roll), Hi(roll), Lo(pitch), Hi(pitch), Lo(throttle), Hi(throttle),
     Lo(yaw), Hi(yaw), Lo(aux1), Hi(aux1),
     Lo(UNUSED_CHANNEL), Hi(UNUSED_CHANNEL), Lo(UNUSED_CHANNEL), Hi(UNUSED_CHANNEL),
     Lo(UNUSED_CHANNEL), Hi(UNUSED_CHANNEL)]
  }

  /** Sixteen bytes laid out channel by channel as sendRC fills them are the RC payload. */
  lemma RcPayloadBytes(p: seq<bv8>, roll: bv16, pitch: bv16, throttle: bv16, yaw: bv16, aux1: bv16)
    requires |p| == 16
    requires p[0] == Lo(roll) && p[1] == Hi(roll) && p[2] == Lo(pitch) && p[3] == Hi(pitch)
    requires p[4] == Lo(throttle) && p[5] == Hi(throttle) && p[6] == Lo(yaw) && p[7] == Hi(yaw)
    requires p[8] == Lo(aux1) && p[9] == Hi(aux1)
    requires forall j :: 10 <= j < 16 ==> p[j] == if j % 2 == 0 then Lo(UNUSED_CHANNEL) else Hi(UNUSED_CHANNEL)
    ensures p == RcPayload(roll, pitch, throttle, yaw, aux1)
  {
    var q := RcPayload(roll, pitch, throttle, yaw, aux1);
    assert p[10] == q[10] && p[11] == q[11] && p[12] == q[12];
    assert p[13] == q[13] && p[14] == q[14] && p[15] == q[15];
  }

  lemma WordLoHi(v: bv16)
    ensures Word(Lo(v), Hi(v)) == v
  {
  }

  /** The little-endian 16-bit channels of a payload. */
  function Channels(p: seq<bv8>): (c: seq<bv16>)
    requires |p| % 2 == 0
    ensures |c| == |p| / 2
  {
    seq(|p| / 2, i requires 0 <= i < |p| / 2 => Word(p[2 * i], p[2 * i + 1]))
  }

  /** Read back as channels, the RC payload gives the five setpoints and three 1000s. */
  lemma RcPayloadChannels(roll: bv16, pitch: bv16, throttle: bv16, yaw: bv16, aux1: bv16)
    ensures Channels(RcPayload(roll, pitch, throttle, yaw, aux1))
            == [roll, pitch, throttle, yaw, aux1, UNUSED_CHANNEL, UNUSED_CHANNEL, UNUSED_CHANNEL]
  {
    WordLoHi(roll);
    WordLoHi(pitch);
    WordLoHi(throttle);
    WordLoHi(yaw);
    WordLoHi(aux1);
    WordLoHi(UNUSED_CHANNEL);
  }

  /** The frame sendRC(throttle, yaw, pitch, roll, aux1) writes. */
  function RcFrame(throttle: bv16, yaw: bv16, pitch: bv16, roll: bv16, aux1: bv16): (f: seq<bv8>)
    ensures |f| == 22
  {
    MspFrame(MSP_SET_RAW_RC, RC_PAYLOAD_LEN, RcPayload(roll, pitch, throttle, yaw, aux1))
  }

  datatype RcCommand = RcCommand(throttle: bv16, yaw: bv16, pitch: bv16, roll: bv16, aux1: bv16)

  /** Reads an MSP_SET_RAW_RC frame back into its five meaningful channels. */
  function DecodeRc(f: seq<bv8>): Option<RcCommand>
  {
    match DecodeMsp(f)
    case None => None
    case Some(m) =>
      if m.cmd != MSP_SET_RAW_RC || |m.payload| != RC_PAYLOAD_LEN as int then None
      else
        var c := Channels(m.payload);
        Some(RcCommand(c[2], c[3], c[1], c[0], c[4]))
  }

  /**
   * An RC frame is 22 bytes with size 16 and command 200, its after-preamble
   * bytes XOR to 0, and it decodes to the setpoints it was built from.
   */
  lemma RcRoundTrip(throttle: bv16, yaw: bv16, pitch: bv16, roll: bv16, aux1: bv16)
    ensures var f := RcFrame(throttle, yaw, pitch, roll, aux1);
            && |f| == 22 && f[3] == RC_PAYLOAD_LEN && f[4] == MSP_SET_RAW_RC
            && XorAll(f[3..]) == 0
            && DecodeRc(f) == Some(RcCommand(throttle, yaw, pitch, roll, aux1))
  {
    var p := RcPayload(roll, pitch, throttle, yaw, aux1);
    var f := RcFrame(throttle, yaw, pitch, roll, aux1);
    assert f == MspFrame(MSP_SET_RAW_RC, RC_PAYLOAD_LEN, p);
    ChecksumCancels(MSP_SET_RAW_RC, RC_PAYLOAD_LEN, p);
    MspFrameLayout(MSP_SET_RAW_RC, RC_PAYLOAD_LEN, p);
    DecodeEncode(MSP_SET_RAW_RC, RC_PAYLOAD_LEN, p);
    RcPayloadChannels(roll, pitch, throttle, yaw, aux1);
    var c := Channels(p);
    assert DecodeRc(f) == Some(RcCommand(c[2], c[3], c[1], c[0], c[4]));
  }
}
