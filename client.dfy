/**
 * One collection round: the battery session, then one real-time session per
 * metric in a fixed order, each on its own connection, folded into a result
 * map of nine keys. A failing session only leaves its own key(s) empty.
 */
module Client {
  import opened Protocol
  import opened Session
  import opened Battery

  /** The nine keys of the result map. */
  datatype Key =
    | BatteryLevel
    | HeartRate
    | SpO2
    | BpSystolic
    | BpDiastolic
    | Temperature
    | Hrv
    | Stress
    | BloodSugar

  const AllKeys: set<Key> :=
    {BatteryLevel, HeartRate, SpO2, BpSystolic, BpDiastolic, Temperature, Hrv, Stress, BloodSugar}

  /** The real-time metrics in the order they are measured, each with its type code. */
  const Measurements: seq<(Key, Byte)> := [
    (HeartRate, MTypeHR),
    (SpO2, MTypeSpO2),
    (Stress, MTypeStress),
    (Hrv, MTypeHRV),
    (Temperature, MTypeTemp),
    (BpSystolic, MTypeBP),
    (BloodSugar, MTypeBloodSugar)
  ]

  /** Position of the blood-pressure session in Measurements. */
  const BpSlot: nat := 5

  /** Which session fills a key: the battery session (-1) or a position in Measurements. */
  function Slot(k: Key): int
  {
    match k
    case BatteryLevel => -1
    case HeartRate => 0
    case SpO2 => 1
    case Stress => 2
    case Hrv => 3
    case Temperature => 4
    case BpSystolic => BpSlot
    case BpDiastolic => BpSlot
    case BloodSugar => 6
  }

  /** What the link does in each session of one round, in Measurements order. */
  datatype RoundEnv = RoundEnv(battery: BatteryEnv, sessions: seq<SessionEnv>)

  predicate WellShaped(env: RoundEnv)
  {
    |env.sessions| == |Measurements|
  }

  /** The first value of the list, or None when the list is empty. */
  function FirstOf(values: seq<nat>): Option<nat>
  {
    if |values| > 0 then Some(values[0]) else None
  }

  /** The second value of the list, or None when it has fewer than two values. */
  function SecondOf(values: seq<nat>): Option<nat>
  {
    if |values| > 1 then Some(values[1]) else None
  }

  /** The map every round starts from, with the battery session's result in it. */
  function Started(battery: Result<Option<nat>, LinkFault>): map<Key, Option<nat>>
  {
    map[
      BatteryLevel := (if battery.Success? then battery.value else None),
      HeartRate := None, SpO2 := None, BpSystolic := None, BpDiastolic := None,
      Temperature := None, Hrv := None, Stress := None, BloodSugar := None]
  }

  /** Writes the outcome of the session at `slot` into the map; a failure writes nothing. */
  function Record(result: map<Key, Option<nat>>, slot: nat, outcome: Result<SessionOutcome, LinkFault>)
    : map<Key, Option<nat>>
    requires slot < |Measurements|
  {
    match outcome
    case Failure(_) => result
    case Success(o) =>
      if Measurements[slot].1 == MTypeBP then
        result[BpSystolic := FirstOf(o.values)][BpDiastolic := SecondOf(o.values)]
      else
        result[Measurements[slot].0 := FirstOf(o.values)]
  }

  /** The map after the battery session and the first |outcomes| real-time sessions. */
  function Fold(battery: Result<Option<nat>, LinkFault>, outcomes: seq<Result<SessionOutcome, LinkFault>>)
    : map<Key, Option<nat>>
    requires |outcomes| <= |Measurements|
  {
    if outcomes == [] then Started(battery)
    else Record(Fold(battery, outcomes[..|outcomes| - 1]), |outcomes| - 1, outcomes[|outcomes| - 1])
  }

  /** Writing results never adds or drops a key. */
  lemma {:induction false} FoldHasAllKeys(battery: Result<Option<nat>, LinkFault>,
                                          outcomes: seq<Result<SessionOutcome, LinkFault>>)
    requires |outcomes| <= |Measurements|
    ensures Fold(battery, outcomes).Keys == AllKeys
  {
    if outcomes != [] {
      FoldHasAllKeys(battery, outcomes[..|outcomes| - 1]);
    }
  }

  /** What key `k` should hold once the sessions of `outcomes` have run: its own session's reading. */
  function Expected(battery: Result<Option<nat>, LinkFault>, outcomes: seq<Result<SessionOutcome, LinkFault>>, k: Key)
    : Option<nat>
  {
    if k == BatteryLevel then (if battery.Success? then battery.value else None)
    else if Slot(k) < |outcomes| then Reported(outcomes[Slot(k)], k)
    else None
  }

  /** Where each metric sits in Measurements: its key's slot, and blood pressure only at BpSlot. */
  lemma MeasurementSlot(n: nat)
    requires n < |Measurements|
    ensures Measurements[n].1 == MTypeBP <==> n == BpSlot
    ensures Slot(Measurements[n].0) == n && Measurements[n].0 !in {BatteryLevel, BpDiastolic}
  {
  }

  /**
   * One step of the fold writes only the key(s) of its own session, with what
   * that session reported; a failed session writes nothing.
   */
  lemma RecordReads(prior: map<Key, Option<nat>>, n: nat, outcome: Result<SessionOutcome, LinkFault>, k: Key)
    requires n < |Measurements| && k in prior
    ensures k in Record(prior, n, outcome)
    ensures Record(prior, n, outcome)[k] == if k != BatteryLevel && Slot(k) == n && outcome.Success? then Reported(outcome, k) else prior[k]
  {
    MeasurementSlot(n);
    if n != BpSlot {
      assert Slot(k) == n <==> k == Measurements[n].0 by {
        match k
        case BatteryLevel =>
        case HeartRate =>
        case SpO2 =>
        case BpSystolic =>
        case BpDiastolic =>
        case Temperature =>
        case Hrv =>
        case Stress =>
        case BloodSugar =>
      }
    }
  }

  /**
   * The fold fills every key from the one session that owns it, and from no
   * other: keys whose session has not run yet, or failed, hold None.
   */
  lemma {:induction false} FoldReadsOwnSession(battery: Result<Option<nat>, LinkFault>,
                                               outcomes: seq<Result<SessionOutcome, LinkFault>>, k: Key)
    requires |outcomes| <= |Measurements|
    ensures k in Fold(battery, outcomes) && Fold(battery, outcomes)[k] == Expected(battery, outcomes, k)
  {
    if outcomes == [] {
      assert k in AllKeys;
    } else {
      var n := |outcomes| - 1;
      FoldReadsOwnSession(battery, outcomes[..n], k);
      RecordReads(Fold(battery, outcomes[..n]), n, outcomes[n], k);
      if k != BatteryLevel && Slot(k) < n {
        assert outcomes[..n][Slot(k)] == outcomes[Slot(k)];
      }
    }
  }

  /** What a key reads off the outcome of the one session that fills it. */
  function Reported(outcome: Result<SessionOutcome, LinkFault>, k: Key): Option<nat>
  {
    match outcome
    case Failure(_) => None
    case Success(o) => if k == BpDiastolic then SecondOf(o.values) else FirstOf(o.values)
  }

  /** The outcomes of the real-time sessions of a round, in Measurements order. */
  function Outcomes(env: RoundEnv): (outcomes: seq<Result<SessionOutcome, LinkFault>>)
    requires WellShaped(env)
    ensures |outcomes| == |Measurements|
    ensures forall i :: 0 <= i < |Measurements| ==> outcomes[i] == SessionSpec(env.sessions[i], Measurements[i].1)
  {
    seq(|Measurements|, i requires 0 <= i < |Measurements| => SessionSpec(env.sessions[i], Measurements[i].1))
  }

  /** The battery session's result in a round. */
  function BatteryOutcome(env: RoundEnv): Result<Option<nat>, LinkFault>
  {
    if env.battery.fault.Aborts() then Failure(env.battery.fault)
    else Success(FirstBatteryLevel(env.battery.stream, env.battery.written + BatteryTimeout))
  }

  /** The result map of a round. */
  function RoundSpec(env: RoundEnv): (result: map<Key, Option<nat>>)
    requires WellShaped(env)
    ensures result.Keys == AllKeys
  {
    FoldHasAllKeys(BatteryOutcome(env), Outcomes(env));
    Fold(BatteryOutcome(env), Outcomes(env))
  }

  /**
   * Runs a whole round: all nine keys start empty; battery first, then each
   * metric in order, a failure in one never stopping the rest.
   */
  method CollectAllData(env: RoundEnv) returns (result: map<Key, Option<nat>>)
    requires WellShaped(env)
    ensures result == RoundSpec(env)
    ensures result.Keys == AllKeys
  {
    result := map[
      BatteryLevel := None, HeartRate := None, SpO2 := None,
      BpSystolic := None, BpDiastolic := None, Temperature := None,
      Hrv := None, Stress := None, BloodSugar := None];

    var battery, _ := RunBatteryMeasurement(env.battery);
    if battery.Success? {
      result := result[BatteryLevel := battery.value];
    }
    assert battery == BatteryOutcome(env);
    ghost var outcomes: seq<Result<SessionOutcome, LinkFault>> := [];

    for i := 0 to |Measurements|
      invariant outcomes == Outcomes(env)[..i]
      invariant result == Fold(battery, outcomes)
    {
      var values, _ := RunRealtimeMeasurement(Measurements[i].1, env.sessions[i]);
      result := RecordOutcome(result, i, values);
      FoldStep(battery, outcomes, values);
      PrefixStep(Outcomes(env), i);
      outcomes := outcomes + [values];
    }
    assert outcomes == Outcomes(env);
  }

  /**
   * The body of the collection loop, written as the client's map assignments.
   * `Record` is the same step as a function, so that `Fold` and the lemmas
   * about the round can use it; this method is proved to agree with it.
   */
  method RecordOutcome(result: map<Key, Option<nat>>, slot: nat, outcome: Result<SessionOutcome, LinkFault>)
    returns (next: map<Key, Option<nat>>)
    requires slot < |Measurements|
    ensures next == Record(result, slot, outcome)
  {
    next := result;
    var (key, mtype) := Measurements[slot];
    if outcome.Success? {
      var values := outcome.value.values;
      if mtype == MTypeBP {
        next := next[BpSystolic := FirstOf(values)];
        next := next[BpDiastolic := SecondOf(values)];
      } else {
        next := next[key := FirstOf(values)];
      }
    }
  }

  lemma FoldStep(battery: Result<Option<nat>, LinkFault>, outcomes: seq<Result<SessionOutcome, LinkFault>>,
                 outcome: Result<SessionOutcome, LinkFault>)
    requires |outcomes| < |Measurements|
    ensures Fold(battery, outcomes + [outcome]) == Record(Fold(battery, outcomes), |outcomes|, outcome)
  {
    assert (outcomes + [outcome])[..|outcomes|] == outcomes;
  }

  lemma PrefixStep<T>(s: seq<T>, i: nat)
    requires i < |s|
    ensures s[..i + 1] == s[..i] + [s[i]]
  {
  }

  /**
   * Every round reports all nine keys, and each key holds what its own
   * session produced: the battery level, or the first (for diastolic the
   * second) value of its real-time session, None when that session failed.
   */
  lemma RoundReadsOwnSession(env: RoundEnv, k: Key)
    requires WellShaped(env)
    ensures k == BatteryLevel ==>
              RoundSpec(env)[k] == if env.battery.fault.Aborts() then None
                                   else FirstBatteryLevel(env.battery.stream, env.battery.written + BatteryTimeout)
    ensures k != BatteryLevel ==>
              RoundSpec(env)[k] == Reported(SessionSpec(env.sessions[Slot(k)], Measurements[Slot(k)].1), k)
  {
    FoldReadsOwnSession(BatteryOutcome(env), Outcomes(env), k);
  }

  /** A session that fails leaves its own key(s) empty. */
  lemma FailedSessionLeavesKeyEmpty(env: RoundEnv, k: Key)
    requires WellShaped(env) && k != BatteryLevel
    requires env.sessions[Slot(k)].fault.Aborts()
    ensures RoundSpec(env)[k] == None
  {
    RoundReadsOwnSession(env, k);
  }

  /**
   * Isolation: whatever happens in one session (a failure included), every
   * key filled by another session reports the same value.
   */
  lemma SessionsAreIsolated(env: RoundEnv, i: nat, other: SessionEnv, k: Key)
    requires WellShaped(env) && i < |Measurements| && Slot(k) != i
    ensures RoundSpec(env.(sessions := env.sessions[i := other]))[k] == RoundSpec(env)[k]
  {
    RoundReadsOwnSession(env, k);
    RoundReadsOwnSession(env.(sessions := env.sessions[i := other]), k);
  }

  /** Blood pressure is reported atomically: systolic and diastolic are both present or both absent. */
  lemma BloodPressureReportedTogether(env: RoundEnv)
    requires WellShaped(env)
    ensures RoundSpec(env)[BpSystolic].Some? <==> RoundSpec(env)[BpDiastolic].Some?
  {
    RoundReadsOwnSession(env, BpSystolic);
    RoundReadsOwnSession(env, BpDiastolic);
    if SessionSpec(env.sessions[BpSlot], MTypeBP).Success? {
      SessionValuesShape(env.sessions[BpSlot], MTypeBP);
    }
  }

  /** A real-time reading in the result map is never the zero "still measuring" value. */
  lemma RoundReadingIsPositive(env: RoundEnv, k: Key)
    requires WellShaped(env) && k != BatteryLevel
    ensures RoundSpec(env)[k].Some? ==> RoundSpec(env)[k].value > 0
  {
    RoundReadsOwnSession(env, k);
    ReportedIsPositive(env.sessions[Slot(k)], Measurements[Slot(k)].1, k);
  }

  /** Whatever a session reports under any key is a positive reading. */
  lemma ReportedIsPositive(env: SessionEnv, mtype: Byte, k: Key)
    ensures Reported(SessionSpec(env, mtype), k).Some? ==> Reported(SessionSpec(env, mtype), k).value > 0
  {
    if SessionSpec(env, mtype).Success? {
      SessionValuesShape(env, mtype);
    }
  }
}
