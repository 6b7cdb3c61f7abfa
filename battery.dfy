/**
 * The battery session: write the battery query, take the first battery
 * response that arrives within ten ticks of the write, then unsubscribe.
 */
module Battery {
  import opened Protocol
  import opened Packet

  /** What the battery callback accepts: four bytes or more, battery command first. */
  predicate IsBatteryFrame(data: seq<Byte>)
  {
    |data| >= 4 && data[0] == CmdBattery
  }

  /**
   * The level carried by the first battery response among the notifications
   * that arrive before `deadline`; none if there is no such response.
   */
  function FirstBatteryLevel(ns: seq<Notification>, deadline: int): Option<nat>
  {
    if ns == [] || ns[0].at >= deadline then None
    else if IsBatteryFrame(ns[0].data) then Some(ns[0].data[1])
    else FirstBatteryLevel(ns[1..], deadline)
  }

  /**
   * The level reported is that of the first battery response to arrive in
   * time; there is none exactly when no response arrived in time.
   */
  lemma {:induction false} FirstBatteryLevelIsFirstResponse(ns: seq<Notification>, deadline: int)
    ensures FirstBatteryLevel(ns, deadline).None? <==>
              forall i :: 0 <= i < Delivered(ns, deadline - 1) ==> !IsBatteryFrame(ns[i].data)
    ensures FirstBatteryLevel(ns, deadline).Some? ==>
              exists i :: 0 <= i < Delivered(ns, deadline - 1) && IsBatteryFrame(ns[i].data)
                && FirstBatteryLevel(ns, deadline).value == ns[i].data[1]
                && forall k :: 0 <= k < i ==> !IsBatteryFrame(ns[k].data)
  {
    if ns != [] && ns[0].at < deadline && !IsBatteryFrame(ns[0].data) {
      FirstBatteryLevelIsFirstResponse(ns[1..], deadline);
      var rest := FirstBatteryLevel(ns[1..], deadline);
      if rest.Some? {
        var i :| 0 <= i < Delivered(ns[1..], deadline - 1) && IsBatteryFrame(ns[1..][i].data)
                 && rest.value == ns[1..][i].data[1]
                 && forall k :: 0 <= k < i ==> !IsBatteryFrame(ns[1..][k].data);
        assert IsBatteryFrame(ns[i + 1].data);
      } else {
        forall i | 0 <= i < Delivered(ns, deadline - 1) ensures !IsBatteryFrame(ns[i].data) {
          if i > 0 {
            assert ns[i] == ns[1..][i - 1];
          }
        }
      }
    }
  }

  /**
   * What the link does during the battery session: its fault (if any), the
   * tick the query write completes, and the notifications that arrive.
   */
  datatype BatteryEnv = BatteryEnv(fault: LinkFault, written: int, stream: seq<Notification>)

  /**
   * Runs the battery session. Connecting, subscribing or writing the query can
   * fail the session; a timeout only leaves the level unknown. `written` lists
   * the frames the ring accepted: the query, a bare battery command.
   */
  method RunBatteryMeasurement(env: BatteryEnv) returns (r: Result<Option<nat>, LinkFault>, written: seq<seq<Byte>>)
    ensures r.Failure? <==> env.fault.Aborts()
    ensures r.Failure? ==> r.error == env.fault
    ensures r.Success? ==> r.value == FirstBatteryLevel(env.stream, env.written + BatteryTimeout)
    ensures |written| == if env.fault.Aborts() then 0 else 1
    ensures |written| == 1 ==>
              && |written[0]| == PacketSize && written[0][0] == CmdBattery
              && (forall i :: 1 <= i < PacketSize - 1 ==> written[0][i] == 0)
              && written[0][PacketSize - 1] == CmdBattery
  {
    if env.fault.ConnectFails? || env.fault.SubscribeFails? {
      return Failure(env.fault), [];
    }
    var query := BuildPacket(CmdBattery, []);
    if env.fault.CommandWriteFails? {
      return Failure(env.fault), [];
    }
    SumZeroTail(query[..PacketSize - 1], 1);
    assert query[..PacketSize - 1][..1] == [CmdBattery];
    written := [query];
    var deadline := env.written + BatteryTimeout;
    var level: Option<nat> := None;
    var i := 0;
    while i < |env.stream| && env.stream[i].at < deadline && level.None?
      invariant i <= |env.stream|
      invariant (if level.None? then FirstBatteryLevel(env.stream[i..], deadline) else level)
                == FirstBatteryLevel(env.stream, deadline)
    {
      var data := env.stream[i].data;
      if |data| >= 4 && data[0] == CmdBattery {
        level := Some(data[1]);
      }
      assert env.stream[i..][1..] == env.stream[i + 1..];
      i := i + 1;
    }
    // An UnsubscribeFails fault is swallowed here.
    r := Success(level);
  }
}
