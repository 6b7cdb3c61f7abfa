/**
 * Outbound frame construction: a zero-filled 16-byte buffer with the command
 * at offset 0, at most 14 payload bytes at offsets 1..14 and the checksum at
 * offset 15. Inbound frames are never checksum-checked by the client.
 */
module Packet {
  import opened Protocol

  /** Plain sum of a byte sequence. */
  function Sum(s: seq<Byte>): nat
  {
    if s == [] then 0 else s[0] + Sum(s[1..])
  }

  /** The checksum covers the first 15 bytes (fewer if the buffer is shorter). */
  function Checksum(packet: seq<Byte>): (r: Byte)
    ensures r < 255
  {
    var covered := if |packet| < PacketSize - 1 then packet else packet[..PacketSize - 1];
    Sum(covered) % 255
  }

  /** A full-length frame whose trailing byte is the checksum of the rest. */
  predicate ChecksumValid(frame: seq<Byte>)
  {
    |frame| == PacketSize && frame[PacketSize - 1] == Checksum(frame)
  }

  /** A real-time control frame for `mtype` carrying sub-code `cmd`. */
  predicate IsRealtimeFrame(frame: seq<Byte>, mtype: Byte, cmd: Byte)
  {
    && ChecksumValid(frame)
    && frame[0] == CmdRealtime && frame[1] == mtype && frame[2] == cmd
    && forall i :: 3 <= i < PacketSize - 1 ==> frame[i] == 0
  }

  /**
   * Builds a command frame in a zero-filled buffer: the command at offset 0,
   * the payload (cut to 14 bytes) from offset 1, the checksum at offset 15.
   */
  method BuildPacket(command: Byte, payload: seq<Byte>) returns (packet: seq<Byte>)
    ensures |packet| == PacketSize && packet[0] == command
    ensures forall i :: 1 <= i < PacketSize - 1 ==>
              packet[i] == if i - 1 < |payload| then payload[i - 1] else 0
    ensures ChecksumValid(packet) && packet[PacketSize - 1] < 255
  {
    var buf := new Byte[PacketSize](_ => 0);
    buf[0] := command;
    var n := if |payload| < PacketSize - 2 then |payload| else PacketSize - 2;
    for i := 0 to n
      invariant buf[0] == command
      invariant forall k :: 1 <= k <= i ==> buf[k] == payload[k - 1]
      invariant forall k :: i < k < PacketSize ==> buf[k] == 0
    {
      buf[i + 1] := payload[i];
    }
    buf[PacketSize - 1] := Checksum(buf[..]);
    packet := buf[..];
  }

  /**
   * The START/STOP frame of a real-time measurement: payload [mtype, cmd]
   * after the real-time command byte, zeros after that.
   */
  method BuildRealtimePacket(mtype: Byte, cmd: Byte) returns (packet: seq<Byte>)
    ensures |packet| == PacketSize
    ensures packet[0] == CmdRealtime && packet[1] == mtype && packet[2] == cmd
    ensures forall i :: 3 <= i < PacketSize - 1 ==> packet[i] == 0
    ensures ChecksumValid(packet)
    ensures packet[PacketSize - 1] == (CmdRealtime + mtype + cmd) % 255
  {
    packet := BuildPacket(CmdRealtime, [mtype, cmd]);
    var body := packet[..PacketSize - 1];
    SumZeroTail(body, 3);
    assert body[..3] == [CmdRealtime, mtype, cmd];
    assert Sum(body[..3]) == CmdRealtime + mtype + cmd by {
      var three := [CmdRealtime, mtype, cmd];
      assert three[1..] == [mtype, cmd] && three[1..][1..] == [cmd] && [cmd][1..] == [];
      assert Sum([cmd]) == cmd;
      assert Sum([mtype, cmd]) == mtype + cmd;
    }
  }

  /** Only the first 15 bytes enter the checksum: whatever follows them is ignored. */
  lemma ChecksumSeesOnlyHeader(p: seq<Byte>, q: seq<Byte>)
    requires |p| >= PacketSize - 1 && |q| >= PacketSize - 1
    requires p[..PacketSize - 1] == q[..PacketSize - 1]
    ensures Checksum(p) == Checksum(q)
  {
  }

  /** A full-length frame is valid exactly when its last byte is the sum of the other fifteen, modulo 255. */
  lemma ChecksumValidIsHeaderSum(frame: seq<Byte>)
    requires |frame| == PacketSize
    ensures ChecksumValid(frame) <==> frame[PacketSize - 1] == Sum(frame[..PacketSize - 1]) % 255
  {
  }

  /** Bytes past `k` that are all zero add nothing to the sum. */
  lemma {:induction false} SumZeroTail(s: seq<Byte>, k: nat)
    requires k <= |s|
    requires forall i :: k <= i < |s| ==> s[i] == 0
    ensures Sum(s) == Sum(s[..k])
  {
    if |s| == k {
      assert s[..k] == s;
    } else if k == 0 {
      SumZeroTail(s[1..], 0);
    } else {
      SumZeroTail(s[1..], k - 1);
      assert s[..k][1..] == s[1..][..k - 1];
    }
  }
}
