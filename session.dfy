/**
 * One real-time measurement session: the rolling MeasurementState, the
 * notification handler that feeds it, and the once-per-tick polling loop that
 * ends the session when the stream has gone quiet or at the deadline.
 */
module Session {
  import opened Protocol
  import opened Decoder
  import opened Packet

  /** The value of a MeasurementState at one moment. */
  datatype Reading = Reading(value: Option<nat>, value2: Option<nat>, lastUpdate: int, observationCount: nat)

  /** A state created at clock tick `now`: nothing measured, nothing observed. */
  function Initial(now: int): Reading
  {
    Reading(None, None, now, 0)
  }

  /** The value slots after one decoded frame; time and count are untouched. */
  function Apply(r: Reading, u: Update): Reading
  {
    match u
    case Unchanged => r
    case SetValue(v) => r.(value := Some(v))
    case SetPair(s, d) => r.(value := Some(s), value2 := Some(d))
  }

  /** One run of the notification handler: decode, then stamp and count. */
  function Observe(r: Reading, mtype: Byte, n: Notification): Reading
  {
    Apply(r, Decode(n.data, mtype)).(lastUpdate := n.at, observationCount := r.observationCount + 1)
  }

  /** The state after the handler has run on each notification of `ns` in turn. */
  function Replay(r: Reading, mtype: Byte, ns: seq<Notification>): (q: Reading)
    ensures q.observationCount == r.observationCount + |ns|
    ensures q.lastUpdate == if ns == [] then r.lastUpdate else ns[|ns| - 1].at
  {
    if ns == [] then r else Observe(Replay(r, mtype, ns[..|ns| - 1]), mtype, ns[|ns| - 1])
  }

  /** The state as the polling loop sees it at tick `t`. */
  function StateAt(init: Reading, mtype: Byte, ns: seq<Notification>, t: int): Reading
  {
    Replay(init, mtype, ns[..Delivered(ns, t)])
  }

  /**
   * The early-exit test of the polling loop. A session that exits early
   * always has a reading to report, the primary value first.
   */
  predicate Stable(r: Reading, now: int)
    ensures Stable(r, now) ==> r.value.Some? && Results(r) != [] && Results(r)[0] == r.value.value
  {
    r.observationCount > 0 && r.value.Some? && now - r.lastUpdate >= MeasurementStablePeriod
  }

  /**
   * The tick at which the polling loop ends when its next check is at `tick`:
   * the first checked tick at which the state is stable, or the deadline.
   */
  function StopTime(init: Reading, mtype: Byte, ns: seq<Notification>, tick: int, deadline: int): (r: int)
    requires tick <= deadline
    ensures tick <= r <= deadline
    ensures r < deadline ==> Stable(StateAt(init, mtype, ns, r), r)
    ensures forall t :: tick <= t < r ==> !Stable(StateAt(init, mtype, ns, t), t)
    decreases deadline - tick
  {
    if tick == deadline then deadline
    else if Stable(StateAt(init, mtype, ns, tick), tick) then tick
    else StopTime(init, mtype, ns, tick + 1, deadline)
  }

  /** The session's result list: the primary value, then the secondary one. */
  function Results(r: Reading): (res: seq<nat>)
    ensures |res| == (if r.value.Some? then 1 else 0) + (if r.value2.Some? then 1 else 0)
    ensures r.value.Some? ==> res[0] == r.value.value
    ensures r.value2.Some? ==> res[|res| - 1] == r.value2.value
    ensures forall v :: v in res <==> r.value == Some(v) || r.value2 == Some(v)
  {
    (if r.value.Some? then [r.value.value] else []) + (if r.value2.Some? then [r.value2.value] else [])
  }

  /**
   * What the link does during one session: the fault it suffers (if any), the
   * tick the state is created, the tick the deadline is computed (after the
   * START frame is written), and the notifications that arrive.
   */
  datatype SessionEnv = SessionEnv(fault: LinkFault, created: int, started: int, stream: seq<Notification>)

  datatype SessionOutcome = SessionOutcome(values: seq<nat>, stoppedAt: int)

  /** The whole session as a function of what the link does. */
  function SessionSpec(env: SessionEnv, mtype: Byte): Result<SessionOutcome, LinkFault>
  {
    if env.fault.Aborts() then Failure(env.fault)
    else
      var init := Initial(env.created);
      var stop := StopTime(init, mtype, env.stream, env.started + 1, env.started + MeasurementTimeout);
      Success(SessionOutcome(Results(StateAt(init, mtype, env.stream, stop)), stop))
  }

  class MeasurementState {
    var value: Option<nat>
    var value2: Option<nat>   // diastolic, for blood pressure only
    var lastUpdate: int
    var observationCount: nat

    function View(): Reading
      reads this
    {
      Reading(value, value2, lastUpdate, observationCount)
    }

    constructor (now: int)
      ensures View() == Initial(now)
    {
      value, value2 := None, None;
      lastUpdate := now;
      observationCount := 0;
    }
  }

  /** Parses one notification into `state` per the real-time response table. */
  method HandleRealtimeResponse(data: seq<Byte>, mtype: Byte, state: MeasurementState)
    modifies state
    ensures state.View() == Apply(old(state.View()), Decode(data, mtype))
  {
    if |data| < PacketSize {
      return;
    }
    if data[0] != CmdRealtime {
      return;
    }
    if data[1] != mtype {
      return;
    }
    if mtype == MTypeHR {
      var value := data[3];
      if value > 0 {
        state.value := Some(value);
      }
    } else if mtype == MTypeSpO2 {
      var value := data[3];
      if value > 0 {
        state.value := Some(value);
      }
    } else if mtype == MTypeStress {
      var value := data[3];
      if value > 0 {
        state.value := Some(value);
      }
    } else if mtype == MTypeHRV {
      var raw := data[3] as int * 256 + data[4] as int;
      if raw > 0 {
        state.value := Some(raw);
      }
    } else if mtype == MTypeTemp {
      var integerPart, decimalPart := data[3], data[4];
      if integerPart > 0 {
        state.value := Some(10 * integerPart as int + decimalPart as int);
      }
    } else if mtype == MTypeBP {
      var systolic, diastolic := data[3], data[4];
      if systolic > 0 && diastolic > 0 {
        state.value := Some(systolic);
        state.value2 := Some(diastolic);
      }
    } else if mtype == MTypeBloodSugar {
      var raw := data[3] as int * 256 + data[4] as int;
      if raw > 0 {
        state.value := Some(raw);
      }
    }
  }

  /** The notification callback: every notification is stamped and counted. */
  method OnNotification(state: MeasurementState, mtype: Byte, n: Notification)
    modifies state
    ensures state.View() == Observe(old(state.View()), mtype, n)
  {
    HandleRealtimeResponse(n.data, mtype, state);
    state.lastUpdate := n.at;
    state.observationCount := state.observationCount + 1;
  }

  /**
   * Hands every notification that has arrived by tick `now` to the callback,
   * in order, starting from the first one not yet handed over.
   */
  method DeliverArrived(state: MeasurementState, mtype: Byte, stream: seq<Notification>, from: nat, now: int,
                        ghost init: Reading) returns (i: nat)
    requires from <= |stream| && forall j :: 0 <= j < from ==> stream[j].at <= now
    requires state.View() == Replay(init, mtype, stream[..from])
    modifies state
    ensures i == Delivered(stream, now)
    ensures state.View() == Replay(init, mtype, stream[..i])
  {
    i := from;
    while i < |stream| && stream[i].at <= now
      invariant i <= |stream|
      invariant forall j :: 0 <= j < i ==> stream[j].at <= now
      invariant state.View() == Replay(init, mtype, stream[..i])
    {
      OnNotification(state, mtype, stream[i]);
      assert stream[..i + 1][..i] == stream[..i] && stream[..i + 1][i] == stream[i];
      i := i + 1;
    }
    DeliveredIsFirstLate(stream, now, i);
  }

  /** The delivered prefix ends at the first notification that has not arrived yet. */
  lemma {:induction false} DeliveredIsFirstLate(ns: seq<Notification>, t: int, i: nat)
    requires i <= |ns| && forall j :: 0 <= j < i ==> ns[j].at <= t
    requires i == |ns| || ns[i].at > t
    ensures Delivered(ns, t) == i
  {
    if i > 0 {
      DeliveredIsFirstLate(ns[1..], t, i - 1);
    }
  }

  /** A checked tick that is the first stable one, or the deadline, is the stop time. */
  lemma StopTimeIsFirstStable(init: Reading, mtype: Byte, ns: seq<Notification>, tick: int, deadline: int, x: int)
    requires tick <= x <= deadline
    requires forall t :: tick <= t < x ==> !Stable(StateAt(init, mtype, ns, t), t)
    requires x == deadline || Stable(StateAt(init, mtype, ns, x), x)
    ensures StopTime(init, mtype, ns, tick, deadline) == x
  {
  }

  /**
   * The polling loop: sleeps one tick, lets the callback take what has
   * arrived, and stops once the state is stable or the deadline is reached.
   */
  method Poll(state: MeasurementState, mtype: Byte, stream: seq<Notification>, started: int, ghost init: Reading)
    returns (now: int)
    requires state.View() == init
    modifies state
    ensures now == StopTime(init, mtype, stream, started + 1, started + MeasurementTimeout)
    ensures state.View() == StateAt(init, mtype, stream, now)
  {
    var deadline := started + MeasurementTimeout;
    now := started;
    var i := 0;
    while now < deadline
      invariant started <= now <= deadline
      invariant i <= |stream|
      invariant now == started ==> i == 0
      invariant now > started ==> i == Delivered(stream, now)
      invariant state.View() == Replay(init, mtype, stream[..i])
      invariant forall t :: started < t <= now ==> !Stable(StateAt(init, mtype, stream, t), t)
      decreases deadline - now
    {
      now := now + 1;  // one second of sleep
      i := DeliverArrived(state, mtype, stream, i, now, init);
      ghost var seen := StateAt(init, mtype, stream, now);
      assert state.View() == seen;
      if state.observationCount > 0 && state.value.Some? && now - state.lastUpdate >= MeasurementStablePeriod {
        break;
      }
      forall t | started < t <= now
        ensures !Stable(StateAt(init, mtype, stream, t), t)
      {
        if t == now {
          assert StateAt(init, mtype, stream, t) == seen;
        }
      }
    }
    StopTimeIsFirstStable(init, mtype, stream, started + 1, deadline, now);
  }

  /**
   * Runs one real-time session: fails if connecting, subscribing or writing
   * START fails; otherwise polls until stable or the deadline, then writes
   * STOP and unsubscribes (failures there are swallowed) and reports the
   * values. `written` lists the frames the ring accepted, in order.
   */
  method RunRealtimeMeasurement(mtype: Byte, env: SessionEnv)
    returns (r: Result<SessionOutcome, LinkFault>, written: seq<seq<Byte>>)
    ensures r == SessionSpec(env, mtype)
    ensures r.Failure? <==> env.fault.Aborts()
    ensures r.Success? ==> env.started < r.value.stoppedAt <= env.started + MeasurementTimeout
    ensures |written| == if env.fault.Aborts() then 0 else if env.fault.StopWriteFails? then 1 else 2
    ensures |written| > 0 ==> IsRealtimeFrame(written[0], mtype, RealtimeCmdStart)
    ensures |written| > 1 ==> IsRealtimeFrame(written[1], mtype, RealtimeCmdStop)
  {
    if env.fault.Aborts() {
      // connecting, subscribing or writing START raised
      r, written := Failure(env.fault), [];
    } else {
      var start := BuildRealtimePacket(mtype, RealtimeCmdStart);
      var outcome := Measure(mtype, env);
      var stop := BuildRealtimePacket(mtype, RealtimeCmdStop);
      // A failed STOP write, or a failed unsubscribe, is swallowed.
      written := if env.fault.StopWriteFails? then [start] else [start, stop];
      r := Success(outcome);
    }
  }

  /** The measuring part of a session that got through its START write. */
  method Measure(mtype: Byte, env: SessionEnv) returns (outcome: SessionOutcome)
    requires !env.fault.Aborts()
    ensures SessionSpec(env, mtype) == Success(outcome)
  {
    var state := new MeasurementState(env.created);
    var stoppedAt := Poll(state, mtype, env.stream, env.started, state.View());
    outcome := SessionOutcome(Results(state.View()), stoppedAt);
  }

  // ---------------------------------------------------------------------
  // What the handler does to the value slots
  // ---------------------------------------------------------------------

  /** A value once accepted is never cleared: later frames can only replace it. */
  lemma {:induction false} ValueNeverCleared(r: Reading, mtype: Byte, ns: seq<Notification>)
    ensures r.value.Some? ==> Replay(r, mtype, ns).value.Some?
    ensures r.value2.Some? ==> Replay(r, mtype, ns).value2.Some?
  {
    if ns != [] {
      ValueNeverCleared(r, mtype, ns[..|ns| - 1]);
    }
  }

  /** Frames that decode to nothing (ignored or "still measuring") leave both slots alone. */
  lemma {:induction false} UndecodedFramesChangeNothing(r: Reading, mtype: Byte, ns: seq<Notification>)
    requires forall j :: 0 <= j < |ns| ==> Decode(ns[j].data, mtype) == Unchanged
    ensures Replay(r, mtype, ns).value == r.value
    ensures Replay(r, mtype, ns).value2 == r.value2
  {
    if ns != [] {
      UndecodedFramesChangeNothing(r, mtype, ns[..|ns| - 1]);
    }
  }

  /** One frame that decodes to a reading is enough to leave a value behind. */
  lemma {:induction false} DecodedFrameSetsValue(r: Reading, mtype: Byte, ns: seq<Notification>, j: nat)
    requires j < |ns| && Decode(ns[j].data, mtype) != Unchanged
    ensures Replay(r, mtype, ns).value.Some?
  {
    if j < |ns| - 1 {
      DecodedFrameSetsValue(r, mtype, ns[..|ns| - 1], j);
    }
  }

  /**
   * The slots as the handler leaves them: readings are never zero, the second
   * slot is used by blood pressure only, and there always together with the first.
   */
  predicate Consistent(r: Reading, mtype: Byte)
  {
    && (r.value.Some? ==> r.value.value > 0)
    && (r.value2.Some? ==> r.value2.value > 0 && r.value.Some? && mtype == MTypeBP)
    && (mtype == MTypeBP ==> (r.value.Some? <==> r.value2.Some?))
  }

  lemma {:induction false} ReplayKeepsConsistent(r: Reading, mtype: Byte, ns: seq<Notification>)
    requires Consistent(r, mtype)
    ensures Consistent(Replay(r, mtype, ns), mtype)
  {
    if ns != [] {
      ReplayKeepsConsistent(r, mtype, ns[..|ns| - 1]);
    }
  }

  /**
   * What a finished session reports: positive readings only; one at most,
   * except blood pressure, which reports none or systolic then diastolic.
   */
  lemma SessionValuesShape(env: SessionEnv, mtype: Byte)
    requires SessionSpec(env, mtype).Success?
    ensures var vs := SessionSpec(env, mtype).value.values;
      && (forall k :: 0 <= k < |vs| ==> vs[k] > 0)
      && (if mtype == MTypeBP then |vs| == 0 || |vs| == 2 else |vs| <= 1)
  {
    var init := Initial(env.created);
    var stop := SessionSpec(env, mtype).value.stoppedAt;
    ReplayKeepsConsistent(init, mtype, env.stream[..Delivered(env.stream, stop)]);
  }

  // ---------------------------------------------------------------------
  // When the polling loop stops
  // ---------------------------------------------------------------------

  /**
   * The timeout floor: if no frame ever decodes to a reading, the session is
   * never stable, runs to its deadline and reports nothing.
   */
  lemma TimeoutFloor(env: SessionEnv, mtype: Byte)
    requires !env.fault.Aborts()
    requires forall j :: 0 <= j < |env.stream| ==> Decode(env.stream[j].data, mtype) == Unchanged
    ensures SessionSpec(env, mtype) == Success(SessionOutcome([], env.started + MeasurementTimeout))
  {
    var init := Initial(env.created);
    var stop := StopTime(init, mtype, env.stream, env.started + 1, env.started + MeasurementTimeout);
    var last := StateAt(init, mtype, env.stream, stop);
    NothingDecodedNothingSet(init, mtype, env.stream, stop);
    assert last.value == None && last.value2 == None;
    assert stop == env.started + MeasurementTimeout;
    assert Results(last) == [];
  }

  lemma NothingDecodedNothingSet(init: Reading, mtype: Byte, ns: seq<Notification>, t: int)
    requires forall j :: 0 <= j < |ns| ==> Decode(ns[j].data, mtype) == Unchanged
    ensures StateAt(init, mtype, ns, t).value == init.value
    ensures StateAt(init, mtype, ns, t).value2 == init.value2
  {
    UndecodedFramesChangeNothing(init, mtype, ns[..Delivered(ns, t)]);
  }

  /**
   * An early stop comes only after the ring has been silent for the stable
   * period: no frame arrived in the four ticks up to the stop.
   */
  lemma EarlyStopMeansQuiet(env: SessionEnv, mtype: Byte)
    requires SessionSpec(env, mtype).Success?
    requires Chronological(env.stream)
    requires SessionSpec(env, mtype).value.stoppedAt < env.started + MeasurementTimeout
    ensures var stop := SessionSpec(env, mtype).value.stoppedAt;
      forall j :: 0 <= j < |env.stream| ==>
        env.stream[j].at <= stop - MeasurementStablePeriod || env.stream[j].at > stop
  {
    var stop := SessionSpec(env, mtype).value.stoppedAt;
    var d := Delivered(env.stream, stop);
    assert d > 0 && env.stream[d - 1].at <= stop - MeasurementStablePeriod;
    forall j | 0 <= j < |env.stream| && env.stream[j].at <= stop
      ensures env.stream[j].at <= stop - MeasurementStablePeriod
    {
      assert j < d;
      assert env.stream[j].at <= env.stream[d - 1].at;
    }
  }

  /** Some frame arrived in the stable period ending at tick `t`. */
  predicate HeardWithin(ns: seq<Notification>, t: int)
  {
    exists j :: 0 <= j < |ns| && t - MeasurementStablePeriod < ns[j].at <= t
  }

  /**
   * Every notification counts, whatever it holds: a ring that keeps sending
   * frames less than four ticks apart (repeats of the same reading included)
   * keeps the session running until the deadline.
   */
  lemma SteadyStreamRunsToDeadline(env: SessionEnv, mtype: Byte)
    requires !env.fault.Aborts()
    requires Chronological(env.stream)
    requires forall t :: env.started < t < env.started + MeasurementTimeout ==> HeardWithin(env.stream, t)
    ensures SessionSpec(env, mtype).value.stoppedAt == env.started + MeasurementTimeout
  {
    var stop := SessionSpec(env, mtype).value.stoppedAt;
    if stop < env.started + MeasurementTimeout {
      NotStableWhileHeard(Initial(env.created), mtype, env.stream, stop);
    }
  }

  /** A state that has just been handed a frame is not stable. */
  lemma NotStableWhileHeard(init: Reading, mtype: Byte, ns: seq<Notification>, t: int)
    requires Chronological(ns) && HeardWithin(ns, t)
    ensures !Stable(StateAt(init, mtype, ns, t), t)
  {
    var j :| 0 <= j < |ns| && t - MeasurementStablePeriod < ns[j].at <= t;
    var d := Delivered(ns, t);
    assert j < d;
    assert ns[j].at <= ns[d - 1].at;
  }

  /**
   * Convergence: once the ring falls silent after some frame carried a
   * reading, the session stops at most four ticks after the last frame.
   */
  lemma QuietStreamConverges(env: SessionEnv, mtype: Byte, last: int, k: nat)
    requires !env.fault.Aborts()
    requires forall j :: 0 <= j < |env.stream| ==> env.stream[j].at <= last
    requires k < |env.stream| && Decode(env.stream[k].data, mtype) != Unchanged
    requires env.started < last + MeasurementStablePeriod <= env.started + MeasurementTimeout
    ensures SessionSpec(env, mtype).value.stoppedAt <= last + MeasurementStablePeriod
  {
    var init := Initial(env.created);
    var quiet := last + MeasurementStablePeriod;
    assert Delivered(env.stream, quiet) == |env.stream|;
    assert env.stream[..|env.stream|] == env.stream;
    DecodedFrameSetsValue(init, mtype, env.stream, k);
    assert quiet < env.started + MeasurementTimeout ==> Stable(StateAt(init, mtype, env.stream, quiet), quiet);
  }
}
