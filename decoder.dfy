/**
 * The real-time response table: which frames a session listens to, and how
 * bytes 3 and 4 of such a frame become a reading for each measurement type.
 */
module Decoder {
  import opened Protocol

  /** The four payload layouts that share the real-time response frame. */
  datatype Layout =
    | SingleByte    // byte 3 alone
    | BigEndian16   // (byte 3 << 8) | byte 4
    | Tenths        // integer part in byte 3, tenths in byte 4
    | Pair          // systolic in byte 3, diastolic in byte 4

  function LayoutOf(mtype: Byte): Option<Layout>
  {
    if mtype == MTypeHR || mtype == MTypeSpO2 || mtype == MTypeStress then Some(SingleByte)
    else if mtype == MTypeHRV || mtype == MTypeBloodSugar then Some(BigEndian16)
    else if mtype == MTypeTemp then Some(Tenths)
    else if mtype == MTypeBP then Some(Pair)
    else None
  }

  /** What one frame does to the session's value slots. */
  datatype Update =
    | Unchanged
    | SetValue(value: nat)
    | SetPair(systolic: nat, diastolic: nat)

  /** A full-length real-time response about the requested measurement type. */
  predicate Addressed(data: seq<Byte>, mtype: Byte)
  {
    |data| >= PacketSize && data[0] == CmdRealtime && data[1] == mtype
  }

  /** An unsigned 16-bit big-endian number; the same as `(hi << 8) | lo` for bytes. */
  function BigEndian(hi: Byte, lo: Byte): nat
  {
    hi * 256 + lo
  }

  /** A zero in the leading byte(s) means "still measuring" and yields nothing. */
  function Read(layout: Layout, b3: Byte, b4: Byte): Update
  {
    match layout
    case SingleByte => if b3 > 0 then SetValue(b3) else Unchanged
    case BigEndian16 => if BigEndian(b3, b4) > 0 then SetValue(BigEndian(b3, b4)) else Unchanged
    case Tenths => if b3 > 0 then SetValue(10 * b3 + b4) else Unchanged
    case Pair => if b3 > 0 && b4 > 0 then SetPair(b3, b4) else Unchanged
  }

  /**
   * The effect of one notification on a session for `mtype`. Frames that are
   * short, carry another command or another type are ignored; checksums are
   * not looked at. Temperatures are in tenths of a degree.
   */
  function Decode(data: seq<Byte>, mtype: Byte): (u: Update)
    ensures !Addressed(data, mtype) ==> u == Unchanged
    ensures u.SetValue? ==> u.value > 0 && LayoutOf(mtype).Some? && mtype != MTypeBP
    ensures u.SetPair? <==> mtype == MTypeBP && Addressed(data, mtype) && data[3] > 0 && data[4] > 0
    ensures u.SetPair? ==> u.systolic == data[3] && u.diastolic == data[4]
    ensures Addressed(data, mtype) && (mtype == MTypeHR || mtype == MTypeSpO2 || mtype == MTypeStress) ==>
              u == (if data[3] > 0 then SetValue(data[3]) else Unchanged)
    ensures Addressed(data, mtype) && (mtype == MTypeHRV || mtype == MTypeBloodSugar) ==>
              u == (if data[3] > 0 || data[4] > 0 then SetValue((data[3] as int) * 256 + data[4] as int) else Unchanged)
    ensures Addressed(data, mtype) && mtype == MTypeTemp ==>
              u == (if data[3] > 0 then SetValue(10 * (data[3] as int) + data[4] as int) else Unchanged)
  {
    if !Addressed(data, mtype) then Unchanged
    else match LayoutOf(mtype)
      case None => Unchanged
      case Some(layout) => Read(layout, data[3], data[4])
  }

  /**
   * Worked examples, whatever the remaining eleven bytes hold: 36 and 7 read
   * as 36.7 degrees, 0x01 0x2C as 300 ms, 120 and 80 as one blood-pressure
   * pair; a zero on either side of the pair, or a frame about another type,
   * changes nothing.
   */
  lemma DecodeExamples(rest: seq<Byte>)
    requires |rest| == 11
    ensures Decode([CmdRealtime, MTypeTemp, 0, 36, 7] + rest, MTypeTemp) == SetValue(367)
    ensures Decode([CmdRealtime, MTypeHRV, 0, 0x01, 0x2C] + rest, MTypeHRV) == SetValue(300)
    ensures Decode([CmdRealtime, MTypeBP, 0, 120, 80] + rest, MTypeBP) == SetPair(120, 80)
    ensures Decode([CmdRealtime, MTypeBP, 0, 0, 80] + rest, MTypeBP) == Unchanged
    ensures Decode([CmdRealtime, MTypeBP, 0, 120, 0] + rest, MTypeBP) == Unchanged
    ensures Decode([CmdRealtime, MTypeHR, 0, 72, 0] + rest, MTypeSpO2) == Unchanged
  {
  }
}
