/** The part of the handler that reads the compute service's answers: the
    walk over the `describe_instances` reservations that picks the running
    instances and records every observed state, and the summary of the
    `stop_instances` answer. The service itself is outside this module. */
module Ec2 {

  /** An instance state as the service reports it: a numeric code and a name
      such as "pending", "running", "stopping" or "stopped". */
  datatype InstanceState = InstanceState(code: int, name: string)

  /** One entry of a reservation's `Instances` list. */
  datatype Instance = Instance(instanceId: string, state: InstanceState)

  /** One entry of the `Reservations` list of a `describe_instances` answer. */
  datatype Reservation = Reservation(instances: seq<Instance>)

  /** One entry of the `StoppingInstances` list of a `stop_instances` answer. */
  datatype StateChange = StateChange(instanceId: string, currentState: InstanceState, previousState: InstanceState)

  /** What the handler reports for one stopping instance: its id and the
      names of its new and previous states. */
  datatype StoppingInstance = StoppingInstance(instanceId: string, currentState: string, previousState: string)

  /** The only state name that makes an instance eligible to be stopped. */
  const Running := "running"

  predicate IsRunning(inst: Instance) {
    inst.state.name == Running
  }

  /** The described instances in the order the handler visits them:
      reservation by reservation, and within one reservation in list order
      (`FlattenConcat`). Every described instance is visited, and nothing else
      (`FlattenVisitsOnlyDescribed`). */
  function Flatten(rs: seq<Reservation>): (insts: seq<Instance>)
    ensures forall r, k :: 0 <= r < |rs| && 0 <= k < |rs[r].instances| ==> rs[r].instances[k] in insts
    decreases |rs|
  {
    if |rs| == 0 then [] else Flatten(rs[..|rs| - 1]) + rs[|rs| - 1].instances
  }

  /** The instances of consecutive reservation lists are visited one list
      after the other. */
  lemma {:induction false} FlattenConcat(a: seq<Reservation>, b: seq<Reservation>)
    ensures Flatten(a + b) == Flatten(a) + Flatten(b)
    decreases |b|
  {
    if |b| == 0 {
      assert a + b == a;
    } else {
      var n := |b| - 1;
      var ab := a + b;
      assert ab[..|ab| - 1] == a + b[..n];
      assert ab[|ab| - 1] == b[n];
      assert Flatten(ab) == Flatten(a + b[..n]) + b[n].instances;
      FlattenConcat(a, b[..n]);
      assert Flatten(b) == Flatten(b[..n]) + b[n].instances;
    }
  }

  /** `x` is an instance of one of the reservations `rs`. */
  ghost predicate InSomeReservation(rs: seq<Reservation>, x: Instance) {
    exists r :: 0 <= r < |rs| && x in rs[r].instances
  }

  /** Only described instances are visited. */
  lemma {:induction false} FlattenVisitsOnlyDescribed(rs: seq<Reservation>)
    ensures forall i :: 0 <= i < |Flatten(rs)| ==> InSomeReservation(rs, Flatten(rs)[i])
    decreases |rs|
  {
    if |rs| > 0 {
      var n := |rs| - 1;
      FlattenVisitsOnlyDescribed(rs[..n]);
      var front := Flatten(rs[..n]);
      var insts := Flatten(rs);
      assert insts == front + rs[n].instances;
      forall i | 0 <= i < |insts| ensures InSomeReservation(rs, insts[i]) {
        if i < |front| {
          assert insts[i] == front[i];
          assert InSomeReservation(rs[..n], front[i]);
          var r :| 0 <= r < n && front[i] in rs[..n][r].instances;
          assert rs[..n][r] == rs[r];
        } else {
          assert insts[i] == rs[n].instances[i - |front|];
          assert insts[i] in rs[n].instances;
        }
      }
    }
  }

  /** `instances_to_stop`: the ids of the running instances, in visiting
      order. That the list holds exactly the running ones, in order, is
      `RunningIdsSelectsRunning`. */
  function RunningIds(insts: seq<Instance>): (ids: seq<string>)
    ensures |ids| <= |insts|
    decreases |insts|
  {
    if |insts| == 0 then []
    else
      var last := insts[|insts| - 1];
      RunningIds(insts[..|insts| - 1]) + (if IsRunning(last) then [last.instanceId] else [])
  }

  /** `instance_states`: every described id mapped to a state name, later
      entries overwriting earlier ones (`StateMapKeys`, `StateMapLastWins`).
      The last described instance always shows its own state. */
  function StateMap(insts: seq<Instance>): (states: map<string, string>)
    ensures forall i :: 0 <= i < |insts| ==> insts[i].instanceId in states
    ensures |insts| > 0 ==> states[insts[|insts| - 1].instanceId] == insts[|insts| - 1].state.name
    decreases |insts|
  {
    if |insts| == 0 then map[]
    else
      var last := insts[|insts| - 1];
      StateMap(insts[..|insts| - 1])[last.instanceId := last.state.name]
  }

  /** `stopping_instances`: one summary per entry of the stop answer, in the
      same order, carrying its id and the names of its new and previous states. */
  function StoppingRecords(changes: seq<StateChange>): (records: seq<StoppingInstance>)
    ensures |records| == |changes|
    ensures forall k :: 0 <= k < |changes| ==>
      && records[k].instanceId == changes[k].instanceId
      && records[k].currentState == changes[k].currentState.name
      && records[k].previousState == changes[k].previousState.name
    decreases |changes|
  {
    if |changes| == 0 then []
    else
      var last := changes[|changes| - 1];
      StoppingRecords(changes[..|changes| - 1])
        + [StoppingInstance(last.instanceId, last.currentState.name, last.previousState.name)]
  }

  // ---------------------------------------------------------------------------
  // The loops of the handler, statement by statement
  // ---------------------------------------------------------------------------

  lemma FlattenStep(rs: seq<Reservation>, r: nat)
    requires r < |rs|
    ensures Flatten(rs[..r + 1]) == Flatten(rs[..r]) + rs[r].instances
  {
    assert rs[..r + 1][..r] == rs[..r];
  }

  lemma ScanStep(prefix: seq<Instance>, inst: Instance)
    ensures RunningIds(prefix + [inst]) == RunningIds(prefix) + (if IsRunning(inst) then [inst.instanceId] else [])
    ensures StateMap(prefix + [inst]) == StateMap(prefix)[inst.instanceId := inst.state.name]
  {
    assert (prefix + [inst])[..|prefix|] == prefix;
  }

  /** The inner loop over one reservation's instances, continuing from the
      running ids and states collected for the instances visited before it. */
  method ScanInstances(ghost visited: seq<Instance>, insts: seq<Instance>, toStop0: seq<string>, states0: map<string, string>)
    returns (toStop: seq<string>, states: map<string, string>)
    requires toStop0 == RunningIds(visited) && states0 == StateMap(visited)
    ensures toStop == RunningIds(visited + insts)
    ensures states == StateMap(visited + insts)
  {
    toStop := toStop0;
    states := states0;
    var k := 0;
    assert visited + insts[..0] == visited;
    while k < |insts|
      invariant 0 <= k <= |insts|
      invariant toStop == RunningIds(visited + insts[..k])
      invariant states == StateMap(visited + insts[..k])
    {
      var inst := insts[k];
      ScanStep(visited + insts[..k], inst);
      assert visited + insts[..k + 1] == (visited + insts[..k]) + [inst];
      states := states[inst.instanceId := inst.state.name];
      if inst.state.name == Running {
        toStop := toStop + [inst.instanceId];
      }
      k := k + 1;
    }
    assert insts[..|insts|] == insts;
  }

  /** The nested loop over reservations and their instances: it collects
      the running ids in visiting order and records every observed state. */
  method ScanReservations(rs: seq<Reservation>) returns (toStop: seq<string>, states: map<string, string>)
    ensures toStop == RunningIds(Flatten(rs))
    ensures states == StateMap(Flatten(rs))
  {
    toStop := [];
    states := map[];
    var r := 0;
    while r < |rs|
      invariant 0 <= r <= |rs|
      invariant toStop == RunningIds(Flatten(rs[..r]))
      invariant states == StateMap(Flatten(rs[..r]))
    {
      toStop, states := ScanInstances(Flatten(rs[..r]), rs[r].instances, toStop, states);
      FlattenStep(rs, r);
      r := r + 1;
    }
    assert rs[..|rs|] == rs;
  }

  /** The loop over the stop answer's `StoppingInstances`. */
  method CollectStopping(changes: seq<StateChange>) returns (records: seq<StoppingInstance>)
    ensures records == StoppingRecords(changes)
  {
    records := [];
    var k := 0;
    while k < |changes|
      invariant 0 <= k <= |changes|
      invariant records == StoppingRecords(changes[..k])
    {
      var c := changes[k];
      assert changes[..k + 1][..k] == changes[..k];
      records := records + [StoppingInstance(c.instanceId, c.currentState.name, c.previousState.name)];
      k := k + 1;
    }
    assert changes[..|changes|] == changes;
  }

  // ---------------------------------------------------------------------------
  // What the running list and the state map mean
  // ---------------------------------------------------------------------------

  /** Positions of the running instances, in increasing order. */
  function RunningPositions(insts: seq<Instance>): (pos: seq<nat>)
    decreases |insts|
  {
    if |insts| == 0 then []
    else
      var n := |insts| - 1;
      RunningPositions(insts[..n]) + (if IsRunning(insts[n]) then [n] else [])
  }

  /** `pos` picks out, in increasing order, exactly the positions of the
      running instances of `insts`, and `ids` holds their ids in that order. */
  ghost predicate SelectsRunning(ids: seq<string>, insts: seq<Instance>, pos: seq<nat>) {
    && |pos| == |ids|
    && (forall k :: 0 <= k < |pos| ==> pos[k] < |insts| && ids[k] == insts[pos[k]].instanceId)
    && (forall k, l :: 0 <= k < l < |pos| ==> pos[k] < pos[l])
    && (forall i :: 0 <= i < |insts| ==> (IsRunning(insts[i]) <==> i in pos))
  }

  /** The k-th running id is the id of the instance at the k-th running position. */
  lemma {:induction false} PositionsMatchIds(insts: seq<Instance>)
    ensures |RunningPositions(insts)| == |RunningIds(insts)|
    ensures forall k :: 0 <= k < |RunningPositions(insts)| ==>
      RunningPositions(insts)[k] < |insts| && RunningIds(insts)[k] == insts[RunningPositions(insts)[k]].instanceId
    decreases |insts|
  {
    if |insts| > 0 {
      var n := |insts| - 1;
      var front := insts[..n];
      PositionsMatchIds(front);
      var ids, pos := RunningIds(insts), RunningPositions(insts);
      var ids0, pos0 := RunningIds(front), RunningPositions(front);
      assert ids == ids0 + (if IsRunning(insts[n]) then [insts[n].instanceId] else []);
      assert pos == pos0 + (if IsRunning(insts[n]) then [n] else []);
      forall k | 0 <= k < |pos| ensures pos[k] < |insts| && ids[k] == insts[pos[k]].instanceId {
        if k < |pos0| {
          assert pos[k] == pos0[k] && ids[k] == ids0[k];
          assert insts[pos0[k]] == front[pos0[k]];
        }
      }
    }
  }

  /** Running positions are in range and strictly increasing. */
  lemma {:induction false} PositionsIncreasing(insts: seq<Instance>)
    ensures forall k :: 0 <= k < |RunningPositions(insts)| ==> RunningPositions(insts)[k] < |insts|
    ensures forall k, l :: 0 <= k < l < |RunningPositions(insts)| ==> RunningPositions(insts)[k] < RunningPositions(insts)[l]
    decreases |insts|
  {
    if |insts| > 0 {
      var n := |insts| - 1;
      var front := insts[..n];
      PositionsIncreasing(front);
      var pos0 := RunningPositions(front);
      var pos := RunningPositions(insts);
      assert pos == pos0 + (if IsRunning(insts[n]) then [n] else []);
      forall k | 0 <= k < |pos| ensures pos[k] < |insts| {
        if k < |pos0| {
          assert pos[k] == pos0[k];
        }
      }
      forall k, l | 0 <= k < l < |pos| ensures pos[k] < pos[l] {
        assert pos[k] == pos0[k];
        if l >= |pos0| {
          assert pos0[k] < |front|;
        }
      }
    }
  }

  /** A position is listed exactly when the instance there is running. */
  lemma {:induction false} PositionsAreRunning(insts: seq<Instance>)
    ensures forall i :: 0 <= i < |insts| ==> (IsRunning(insts[i]) <==> i in RunningPositions(insts))
    decreases |insts|
  {
    if |insts| > 0 {
      var n := |insts| - 1;
      var front := insts[..n];
      PositionsAreRunning(front);
      PositionsIncreasing(front);
      var pos0 := RunningPositions(front);
      var pos := RunningPositions(insts);
      assert pos == pos0 + (if IsRunning(insts[n]) then [n] else []);
      forall i | 0 <= i < |insts| ensures IsRunning(insts[i]) <==> i in pos {
        if i < n {
          assert insts[i] == front[i];
          assert i in pos <==> i in pos0;
        } else {
          assert n !in pos0;
        }
      }
    }
  }

  /** `instances_to_stop` is exactly the subsequence of described ids whose
      state is "running": nothing else, none missed, order kept, and an id
      that is running twice appears twice. */
  lemma {:induction false} RunningIdsSelectsRunning(insts: seq<Instance>)
    ensures SelectsRunning(RunningIds(insts), insts, RunningPositions(insts))
  {
    PositionsMatchIds(insts);
    PositionsIncreasing(insts);
    PositionsAreRunning(insts);
  }

  /** Every id selected for stopping was described, in state "running". */
  lemma RunningIdsWereRunning(insts: seq<Instance>, x: string)
    requires x in RunningIds(insts)
    ensures exists i :: 0 <= i < |insts| && insts[i].instanceId == x && IsRunning(insts[i])
  {
    RunningIdsSelectsRunning(insts);
    var ids := RunningIds(insts);
    var pos := RunningPositions(insts);
    var k :| 0 <= k < |ids| && ids[k] == x;
    assert IsRunning(insts[pos[k]]);
  }

  /** Every described running instance is selected for stopping. */
  lemma RunningInstanceSelected(insts: seq<Instance>, i: nat)
    requires i < |insts| && IsRunning(insts[i])
    ensures insts[i].instanceId in RunningIds(insts)
  {
    RunningIdsSelectsRunning(insts);
    var pos := RunningPositions(insts);
    var k :| 0 <= k < |pos| && pos[k] == i;
    assert RunningIds(insts)[k] == insts[i].instanceId;
  }

  /** Some described instance carries id `x`. */
  ghost predicate Described(insts: seq<Instance>, x: string) {
    exists i :: 0 <= i < |insts| && insts[i].instanceId == x
  }

  /** `instance_states` has an entry for every described id and no other. */
  lemma {:induction false} StateMapKeys(insts: seq<Instance>)
    ensures forall x :: x in StateMap(insts) <==> Described(insts, x)
    decreases |insts|
  {
    if |insts| > 0 {
      var n := |insts| - 1;
      var front := insts[..n];
      StateMapKeys(front);
      forall x ensures x in StateMap(insts) <==> Described(insts, x) {
        if Described(front, x) {
          var i :| 0 <= i < |front| && front[i].instanceId == x;
          assert insts[i] == front[i];
        }
        if Described(insts, x) && x != insts[n].instanceId {
          var i :| 0 <= i < |insts| && insts[i].instanceId == x;
          assert front[i] == insts[i];
        }
      }
    }
  }

  /** Each described id maps to the state of its LAST occurrence. */
  lemma {:induction false} StateMapLastWins(insts: seq<Instance>, i: nat)
    requires i < |insts|
    requires forall j :: i < j < |insts| ==> insts[j].instanceId != insts[i].instanceId
    ensures insts[i].instanceId in StateMap(insts)
    ensures StateMap(insts)[insts[i].instanceId] == insts[i].state.name
    decreases |insts|
  {
    var n := |insts| - 1;
    if i < n {
      var front := insts[..n];
      assert front[i] == insts[i];
      StateMapLastWins(front, i);
    }
  }

  /** A repeated id is selected by every running occurrence, while the state
      map keeps only its last state: an id seen first "running" and then
      "stopped" is still sent to `stop_instances`, and reported as "stopped". */
  lemma RepeatedIdStoppedButReportedLast(id: string, code: int, code': int)
    ensures var insts := [Instance(id, InstanceState(code, Running)), Instance(id, InstanceState(code', "stopped"))];
      && RunningIds(insts) == [id]
      && StateMap(insts)[id] == "stopped"
  {
    var insts := [Instance(id, InstanceState(code, Running)), Instance(id, InstanceState(code', "stopped"))];
    assert insts[..1] == [insts[0]];
    assert insts[..1][..0] == [];
  }

  /** When the service answers only about the ids it was asked for, only
      configured ids are ever selected for stopping. */
  lemma TargetsAreRequested(requested: seq<string>, insts: seq<Instance>)
    requires forall i :: 0 <= i < |insts| ==> insts[i].instanceId in requested
    ensures forall x :: x in RunningIds(insts) ==> x in requested
  {
    forall x | x in RunningIds(insts) ensures x in requested {
      RunningIdsWereRunning(insts, x);
    }
  }
}
