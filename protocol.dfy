/**
 * Wire-level vocabulary of the Colmi R09 ring protocol: bytes, command and
 * measurement-type codes, timing constants, and the shapes in which the radio
 * link is seen by the rest of the model (timed notifications, link faults).
 */
module Protocol {

  type Byte = b: int | 0 <= b < 256

  datatype Option<T> = None | Some(value: T)

  datatype Result<T, E> = Success(value: T) | Failure(error: E)

  /** Every frame on the wire is this long (const.py PACKET_SIZE). */
  const PacketSize: nat := 16

  /** Outbound battery query and the matching inbound battery response. */
  const CmdBattery: Byte := 0x03

  /**
   * The real-time command byte and the STOP sub-code. The client imports both
   * names, but const.py defines neither, so their values are unknown: they are
   * left as arbitrary bytes and nothing in the model depends on their values.
   */
  const CmdRealtime: Byte
  const RealtimeCmdStop: Byte

  /** Sub-code that starts (or continues) a real-time measurement. */
  const RealtimeCmdStart: Byte := 0x01

  // Measurement-type codes carried at frame offset 1.
  const MTypeHR: Byte := 0x01
  const MTypeBP: Byte := 0x02
  const MTypeSpO2: Byte := 0x03
  const MTypeStress: Byte := 0x04
  const MTypeTemp: Byte := 0x08
  const MTypeBloodSugar: Byte := 0x09
  const MTypeHRV: Byte := 0x0A

  /** Overall ceiling of one real-time session, in ticks (seconds). */
  const MeasurementTimeout: int := 60
  /** Quiet period after the last notification that ends a session early. */
  const MeasurementStablePeriod: int := 4
  /** How long the battery session waits for its response. */
  const BatteryTimeout: int := 10

  /** One inbound notification: its arrival time (clock tick) and its bytes. */
  datatype Notification = Notification(at: int, data: seq<Byte>)

  /**
   * How many notifications of `ns` have been handed to the handler by clock
   * tick `t`: they are handed over in order, each once its arrival time has
   * come, so this is the longest prefix that has arrived by `t`.
   */
  function Delivered(ns: seq<Notification>, t: int): (d: nat)
    ensures d <= |ns|
    ensures forall j :: 0 <= j < d ==> ns[j].at <= t
    ensures d < |ns| ==> ns[d].at > t
  {
    if ns == [] || ns[0].at > t then 0 else 1 + Delivered(ns[1..], t)
  }

  /** Arrival times never go backwards (the clock is monotonic). */
  predicate Chronological(ns: seq<Notification>)
  {
    forall i, j :: 0 <= i < j < |ns| ==> ns[i].at <= ns[j].at
  }

  /**
   * The one thing that may go wrong on the radio link during a session.
   * The first three raise out of the session; the last two happen during
   * teardown and are swallowed by the client.
   */
  datatype LinkFault =
    | NoFault
    | ConnectFails
    | SubscribeFails
    | CommandWriteFails
    | StopWriteFails
    | UnsubscribeFails
  {
    predicate Aborts() {
      ConnectFails? || SubscribeFails? || CommandWriteFails?
    }
  }
}
