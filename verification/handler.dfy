/** `lambda_handler`: the scheduled stop of a configured list of compute
    instances, with the environment, the date parser, the clock and the
    compute service passed in as parameters. The handler is a pure function
    of them; the response records the status code, the body's outcome and
    every call made to the service, in order. */
module Handler {
  import opened Wrappers
  import opened InstanceIds
  import opened Schedule
  import opened Ec2

  /** `END_DATE` when the variable is unset. */
  const DefaultEndDate := "2025-08-31"

  const StatusOk := 200
  const StatusBadConfig := 400
  const StatusServiceFailure := 500

  /** The two environment variables the handler reads; `None` is unset. */
  datatype Env = Env(instanceIds: Option<string>, endDate: Option<string>)

  /** The compute service as the handler sees it. Each call either answers
      (the decoded response) or raises (the exception's text, which also
      covers an answer missing a field the handler reads). */
  datatype Service = Service(
    describe: seq<string> -> Result<seq<Reservation>, string>,
    stop: seq<string> -> Result<seq<StateChange>, string>)

  /** A call made to the service, with the id list it was given. */
  datatype ServiceCall =
    | DescribeInstances(ids: seq<string>)
    | StopInstances(ids: seq<string>)

  /** What the JSON body reports, up to wording and the execution timestamp. */
  datatype Body =
    | NoInstanceIds
    | InvalidEndDate(endDate: string)
    | SchedulingEnded(endDate: string)
    | StopInitiated(count: nat, stopped: seq<StoppingInstance>, states: map<string, string>)
    | NothingToStop(states: map<string, string>)
    | StopFailed(error: string)

  datatype Response = Response(statusCode: int, body: Body, calls: seq<ServiceCall>)

  /** `os.environ.get('INSTANCE_IDS', '')`. */
  function RawInstanceIds(env: Env): (s: string)
    ensures env.instanceIds.None? ==> s == ""
    ensures env.instanceIds.Some? ==> s == env.instanceIds.value
  {
    env.instanceIds.GetOr("")
  }

  /** `os.environ.get('END_DATE', '2025-08-31')`. */
  function EndDateString(env: Env): (s: string)
    ensures env.endDate.None? ==> s == DefaultEndDate
    ensures env.endDate.Some? ==> s == env.endDate.value
  {
    env.endDate.GetOr(DefaultEndDate)
  }

  /** The part inside the `try` around the service: describe, filter, stop
      if anything is running, summarise. Any raised exception becomes a 500. */
  function RunService(ids: seq<string>, svc: Service): (r: Response)
    ensures |r.calls| >= 1 && r.calls[0] == DescribeInstances(ids)
    ensures r.statusCode == StatusServiceFailure <==> r.body.StopFailed?
    ensures r.statusCode in {StatusOk, StatusServiceFailure}
    ensures |r.calls| == 2 ==> r.calls[1].StopInstances? && r.calls[1].ids != []
    ensures |r.calls| <= 2
  {
    match svc.describe(ids)
    case Failure(e) => Response(StatusServiceFailure, StopFailed(e), [DescribeInstances(ids)])
    case Success(rs) =>
      var insts := Flatten(rs);
      var toStop := RunningIds(insts);
      var states := StateMap(insts);
      if toStop == [] then
        Response(StatusOk, NothingToStop(states), [DescribeInstances(ids)])
      else
        var calls := [DescribeInstances(ids), StopInstances(toStop)];
        match svc.stop(toStop)
        case Failure(e) => Response(StatusServiceFailure, StopFailed(e), calls)
        case Success(changes) => Response(StatusOk, StopInitiated(|toStop|, StoppingRecords(changes), states), calls)
  }

  /** `lambda_handler(event, context)`: the guards in source order, then the
      service. `parse` stands for `datetime.strptime(_, '%Y-%m-%d')`, with
      `None` for the `ValueError` it raises; `now` for `datetime.now(timezone.utc)`. */
  function Handle(env: Env, parse: string -> Option<Date>, now: Instant, svc: Service): (r: Response)
    ensures r.statusCode in {StatusOk, StatusBadConfig, StatusServiceFailure}
    ensures r.statusCode == StatusBadConfig <==> r.body.NoInstanceIds? || r.body.InvalidEndDate?
    ensures r.statusCode == StatusServiceFailure <==> r.body.StopFailed?
    ensures r.calls == [] <==> r.body.NoInstanceIds? || r.body.InvalidEndDate? || r.body.SchedulingEnded?
    ensures |r.calls| <= 2
  {
    var raw := RawInstanceIds(env);
    if raw == "" then
      Response(StatusBadConfig, NoInstanceIds, [])
    else
      var ids := ParseInstanceIds(raw);
      var endStr := EndDateString(env);
      match parse(endStr)
      case None => Response(StatusBadConfig, InvalidEndDate(endStr), [])
      case Some(end) =>
        if PastEndDate(now, end) then Response(StatusOk, SchedulingEnded(endStr), [])
        else RunService(ids, svc)
  }

  // ---------------------------------------------------------------------------
  // The early exits
  // ---------------------------------------------------------------------------

  /** An unset or empty `INSTANCE_IDS` gives 400 whatever the date, the
      clock or the service: nothing is parsed and the service is not called. */
  lemma MissingIdsRejected(env: Env, parse: string -> Option<Date>, now: Instant, svc: Service)
    requires env.instanceIds.None? || env.instanceIds == Some("")
    ensures Handle(env, parse, now, svc) == Response(StatusBadConfig, NoInstanceIds, [])
  {
  }

  /** An end date the parser rejects gives 400 naming the offending string,
      and the service is not called. */
  lemma InvalidEndDateRejected(env: Env, parse: string -> Option<Date>, now: Instant, svc: Service)
    requires RawInstanceIds(env) != ""
    requires parse(EndDateString(env)).None?
    ensures Handle(env, parse, now, svc) == Response(StatusBadConfig, InvalidEndDate(EndDateString(env)), [])
  {
  }

  /** With `END_DATE` unset, the string handed to the parser (and named in a
      400) is the default. */
  lemma UnsetEndDateUsesDefault(env: Env, parse: string -> Option<Date>, now: Instant, svc: Service)
    requires RawInstanceIds(env) != "" && env.endDate.None?
    requires parse(DefaultEndDate).None?
    ensures Handle(env, parse, now, svc).body == InvalidEndDate("2025-08-31")
  {
  }

  /** Past the end date the handler is a 200 no-op: the service is not called. */
  lemma SchedulingEndedNoOp(env: Env, parse: string -> Option<Date>, now: Instant, svc: Service, end: Date)
    requires RawInstanceIds(env) != ""
    requires parse(EndDateString(env)) == Some(end)
    requires PastEndDate(now, end)
    ensures Handle(env, parse, now, svc) == Response(StatusOk, SchedulingEnded(EndDateString(env)), [])
  {
  }

  /** Any instant of the `END_DATE` day after its midnight is already past
      the end: the handler does nothing on the very day it names. */
  lemma NoOpOnEndDateItself(env: Env, parse: string -> Option<Date>, svc: Service, end: Date, micros: nat)
    requires RawInstanceIds(env) != ""
    requires parse(EndDateString(env)) == Some(end)
    requires 0 < micros < MicrosPerDay
    ensures Handle(env, parse, Instant(end, micros), svc).body == SchedulingEnded(EndDateString(env))
    ensures Handle(env, parse, Midnight(end), svc).calls != []
  {
    WindowClosesAtStartOfEndDate(end, micros);
  }

  // ---------------------------------------------------------------------------
  // Reaching the service
  // ---------------------------------------------------------------------------

  /** The service is called exactly when the raw id string is non-empty,
      the end date parses and the clock is not past it; the first call is
      always `describe_instances` with the parsed id list, and from there on
      the response is that of the service path. */
  lemma ServiceReachedIff(env: Env, parse: string -> Option<Date>, now: Instant, svc: Service)
    ensures var r := Handle(env, parse, now, svc);
      r.calls != [] <==>
        && RawInstanceIds(env) != ""
        && parse(EndDateString(env)).Some?
        && !PastEndDate(now, parse(EndDateString(env)).value)
    ensures var r := Handle(env, parse, now, svc);
      r.calls != [] ==> r.calls[0] == DescribeInstances(ParseInstanceIds(RawInstanceIds(env)))
    ensures var r := Handle(env, parse, now, svc);
      r.calls != [] ==> r == RunService(ParseInstanceIds(RawInstanceIds(env)), svc)
  {
  }

  /** The emptiness guard looks at the raw string: a non-empty `INSTANCE_IDS`
      made only of commas and whitespace passes it, and `describe_instances`
      is then called with an empty id list. */
  lemma BlankIdsReachDescribe(env: Env, parse: string -> Option<Date>, now: Instant, svc: Service, end: Date)
    requires RawInstanceIds(env) != "" && OnlyCommasAndSpace(RawInstanceIds(env))
    requires parse(EndDateString(env)) == Some(end) && !PastEndDate(now, end)
    ensures Handle(env, parse, now, svc).calls[0] == DescribeInstances([])
  {
    ParseEmptyIff(RawInstanceIds(env));
  }

  // ---------------------------------------------------------------------------
  // The service path
  // ---------------------------------------------------------------------------

  /** A failing `describe_instances` gives 500 carrying its error, and no
      stop is attempted. */
  lemma DescribeFailureIs500(ids: seq<string>, svc: Service)
    requires svc.describe(ids).Failure?
    ensures RunService(ids, svc) == Response(StatusServiceFailure, StopFailed(svc.describe(ids).error), [DescribeInstances(ids)])
  {
  }

  /** `stop_instances` is called if and only if some described instance is
      running, then exactly once and with exactly the running ids in
      visiting order. */
  lemma StopCalledIffSomethingRuns(ids: seq<string>, svc: Service, rs: seq<Reservation>)
    requires svc.describe(ids) == Success(rs)
    ensures var r := RunService(ids, svc);
      (exists i :: 0 <= i < |r.calls| && r.calls[i].StopInstances?) <==> RunningIds(Flatten(rs)) != []
    ensures var r := RunService(ids, svc);
      forall i :: 0 <= i < |r.calls| && r.calls[i].StopInstances? ==> r.calls[i].ids == RunningIds(Flatten(rs))
  {
    var r := RunService(ids, svc);
    if RunningIds(Flatten(rs)) != [] {
      assert r.calls[1].StopInstances?;
    }
  }

  /** With nothing running, the answer is a 200 "nothing to stop" carrying
      the full state map, after the single describe call. */
  lemma NothingRunningReported(ids: seq<string>, svc: Service, rs: seq<Reservation>)
    requires svc.describe(ids) == Success(rs)
    requires forall i :: 0 <= i < |Flatten(rs)| ==> !IsRunning(Flatten(rs)[i])
    ensures RunService(ids, svc) == Response(StatusOk, NothingToStop(StateMap(Flatten(rs))), [DescribeInstances(ids)])
  {
    var insts := Flatten(rs);
    if RunningIds(insts) != [] {
      RunningIdsWereRunning(insts, RunningIds(insts)[0]);
    }
  }

  /** A successful stop gives 200 whose count is the number of ids sent to
      stop, with one summary per entry of the stop answer, in its order,
      and the full state map. */
  lemma StopSuccessReported(ids: seq<string>, svc: Service, rs: seq<Reservation>, changes: seq<StateChange>)
    requires svc.describe(ids) == Success(rs)
    requires RunningIds(Flatten(rs)) != []
    requires svc.stop(RunningIds(Flatten(rs))) == Success(changes)
    ensures var r := RunService(ids, svc);
      && r.statusCode == StatusOk
      && r.body.StopInitiated?
      && r.body.count == |RunningIds(Flatten(rs))|
      && |r.body.stopped| == |changes|
      && (forall k :: 0 <= k < |changes| ==>
            && r.body.stopped[k].instanceId == changes[k].instanceId
            && r.body.stopped[k].currentState == changes[k].currentState.name
            && r.body.stopped[k].previousState == changes[k].previousState.name)
      && r.body.states == StateMap(Flatten(rs))
  {
  }

  /** A failing `stop_instances` gives 500 carrying its error, after the
      stop call was made. */
  lemma StopFailureIs500(ids: seq<string>, svc: Service, rs: seq<Reservation>)
    requires svc.describe(ids) == Success(rs)
    requires RunningIds(Flatten(rs)) != []
    requires svc.stop(RunningIds(Flatten(rs))).Failure?
    ensures RunService(ids, svc).statusCode == StatusServiceFailure
    ensures RunService(ids, svc).body == StopFailed(svc.stop(RunningIds(Flatten(rs))).error)
    ensures |RunService(ids, svc).calls| == 2
  {
  }

  /** When the service describes only instances it was asked about, every
      id sent to stop is one of the configured ids. */
  lemma StoppedIdsAreConfigured(env: Env, parse: string -> Option<Date>, now: Instant, svc: Service, rs: seq<Reservation>)
    requires svc.describe(ParseInstanceIds(RawInstanceIds(env))) == Success(rs)
    requires forall i :: 0 <= i < |Flatten(rs)| ==> Flatten(rs)[i].instanceId in ParseInstanceIds(RawInstanceIds(env))
    ensures var r := Handle(env, parse, now, svc);
      forall i, x :: 0 <= i < |r.calls| && r.calls[i].StopInstances? && x in r.calls[i].ids
        ==> x in ParseInstanceIds(RawInstanceIds(env))
  {
    TargetsAreRequested(ParseInstanceIds(RawInstanceIds(env)), Flatten(rs));
  }
}
