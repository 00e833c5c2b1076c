# Scheduled EC2 stop handler: a Dafny model

This project models `lambda_handler` in `stop_ec2_instances.py`. The handler is a scheduled cloud function that stops a configured list of EC2 instances until a configured end date, and after that date does nothing. The model covers the handler's decision logic:

- parsing the `INSTANCE_IDS` string into an ordered id list (`InstanceIds`);
- the end-of-window check against `END_DATE` at 00:00 UTC (`Schedule`);
- walking the `describe_instances` answer to collect the running ids and the state map, and summarising the `stop_instances` answer (`Ec2`);
- the fixed order of guards and the status code each one produces (`Handler`).

The handler is `Handler.Handle`. It is a pure function of its inputs:

- the two environment variables (`Env`, where `None` means unset);
- a date parser that stands for `datetime.strptime(_, '%Y-%m-%d')`, with `None` standing for its `ValueError`;
- the current UTC instant;
- the compute service (`Service`): two total functions from an id list to either a decoded answer or the text of the exception raised.

A `Response` holds the status code, what the JSON body reports, and the list of service calls made, in order. That list is how the model states "the service is never called" and "stop is called with exactly this list".

The loops of the source are modelled twice. `Ec2.ScanReservations` (with its inner loop `Ec2.ScanInstances`) and `Ec2.CollectStopping` follow the source's loops statement by statement. They are proved equal to the recursive definitions `Flatten`, `RunningIds`, `StateMap` and `StoppingRecords`, which the handler uses and the lemmas describe.

Behaviours of the code worth knowing, each proved:

- The emptiness guard tests the raw `INSTANCE_IDS` string (line 17), not the parsed list. A string of only commas and whitespace passes the guard, and `describe_instances` is then called with an empty list (`Handler.BlankIdsReachDescribe`). With the real EC2 service, an empty id list describes every instance in the region. So such a string would stop every running instance; this part comes from the service's behaviour, not from the handler's code.
- The window closes at midnight at the start of `END_DATE` (line 30 compares against that midnight). Every instant of the `END_DATE` day after midnight is already a no-op (`Handler.NoOpOnEndDateItself`).
- Every id sent to stop is a configured id only when the service describes just the ids it was asked about; the code does not check this (`Handler.StoppedIdsAreConfigured`). The empty-list case above is exactly where the real service breaks that assumption.
- An id that is described twice is sent to stop once for each running occurrence. The state map keeps only the last state seen for it, so the report can show "stopped" for an id that was sent to stop (`Ec2.RepeatedIdStoppedButReportedLast`).

## Model

| member | source | states |
|---|---|---|
| `InstanceIds.SplitOnComma` | stop_ec2_instances.py:23 | `split(',')` returns at least one piece, and no piece holds a comma |
| `InstanceIds.JoinSplit` | stop_ec2_instances.py:23 | splitting loses nothing: joining the pieces with commas gives back the input |
| `InstanceIds.SplitJoin` | stop_ec2_instances.py:23 | splitting undoes joining for comma-free pieces, so the pieces are exactly the comma-separated fields |
| `InstanceIds.SplitAroundComma` | stop_ec2_instances.py:23 | the pieces of `a,b` are the pieces of `a` followed by the pieces of `b` |
| `InstanceIds.IsSpace` | stop_ec2_instances.py:23 | the characters `strip()` removes: Python's `str.isspace` set (ASCII tab to carriage return, the four separator controls, space, next line, no-break space and the Unicode space separators); its meaning for `strip()` is given by the `Strip` row |
| `InstanceIds.Strip` | stop_ec2_instances.py:23 | `strip()` returns a slice of its input; everything before and after the slice is whitespace, and the slice neither starts nor ends with whitespace |
| `InstanceIds.StripEmptyIffBlank` | stop_ec2_instances.py:23 | the `if id.strip()` filter drops a piece exactly when the piece is all whitespace |
| `InstanceIds.StripOfStripped` | stop_ec2_instances.py:23 | a string with no whitespace at either end is left unchanged by `strip()` |
| `InstanceIds.StripIdempotent` | stop_ec2_instances.py:23 | stripping twice is the same as stripping once |
| `InstanceIds.KeepNonBlank` | stop_ec2_instances.py:23 | the `[id.strip() for id in … if id.strip()]` comprehension: no more ids than pieces, and every kept id is non-empty and stripped; order and drops are given by `ParseAroundComma` and `ParseEmptyIff` |
| `InstanceIds.ParseInstanceIds` | stop_ec2_instances.py:23 | every parsed id is non-empty, has no whitespace at either end, and holds no comma |
| `InstanceIds.ParseAroundComma` | stop_ec2_instances.py:23 | the parsed ids of `a,b` are those of `a` followed by those of `b`: comma order is kept and nothing is deduplicated |
| `InstanceIds.ParseSinglePiece` | stop_ec2_instances.py:23 | a comma-free string parses to its stripped self, or to nothing when it is blank |
| `InstanceIds.DuplicatesKept` | stop_ec2_instances.py:23 | an id listed twice is parsed twice |
| `InstanceIds.ParseEmptyIff` | stop_ec2_instances.py:23 | the parsed list is empty if and only if the raw string holds only commas and whitespace |
| `Schedule.DateBefore` | stop_ec2_instances.py:30 | the date part of the datetime comparison: by year, then month, then day; `InstantOrderIsStrictTotal` shows the order it induces is strict and total |
| `Schedule.InstantBefore` | stop_ec2_instances.py:30 | the `<` of aware UTC datetimes: by date, then time of day; `InstantOrderIsStrictTotal` gives its meaning |
| `Schedule.Midnight` | stop_ec2_instances.py:27 | `end_date` after `.replace(tzinfo=timezone.utc)`: an instant on the given date that no instant of that date precedes, i.e. 00:00:00 UTC |
| `Schedule.PastEndDate` | stop_ec2_instances.py:30 | the guard `current_date > end_date`; `PastEndDateIff` and `WindowClosesAtStartOfEndDate` give its meaning |
| `Schedule.InstantOrderIsStrictTotal` | stop_ec2_instances.py:30 | the datetime comparison used by the expiry check is a strict total order |
| `Schedule.PastEndDateIff` | stop_ec2_instances.py:27-30 | `now > END_DATE at 00:00 UTC` holds exactly when now is on a later day, or on the end date itself after midnight |
| `Schedule.WindowClosesAtStartOfEndDate` | stop_ec2_instances.py:27-30 | the midnight that starts the end date is still inside the window; every later instant of that day is outside it |
| `Schedule.PastEndDateIsMonotone` | stop_ec2_instances.py:30 | once the window has closed, every later instant is also past the end |
| `Ec2.IsRunning` | stop_ec2_instances.py:59 | the eligibility test `state == 'running'` on the state name; `RunningIdsSelectsRunning` shows it decides exactly which ids are stopped |
| `Ec2.Flatten` | stop_ec2_instances.py:53-54 | the visiting order of the nested loop: every instance of every reservation is visited |
| `Ec2.FlattenConcat` | stop_ec2_instances.py:53-54 | reservations are visited one after the other: the instances of `a + b` are those of `a` followed by those of `b` |
| `Ec2.FlattenVisitsOnlyDescribed` | stop_ec2_instances.py:53-54 | every visited instance belongs to one of the described reservations |
| `Ec2.RunningIds` | stop_ec2_instances.py:50-60 | `instances_to_stop`: never longer than the visited instances; `RunningIdsSelectsRunning` gives its full meaning |
| `Ec2.StateMap` | stop_ec2_instances.py:51-57 | `instance_states`: every visited id has an entry, and the last visited instance shows its own state; `StateMapKeys` and `StateMapLastWins` give the rest |
| `Ec2.ScanInstances` | stop_ec2_instances.py:54-63 | the inner loop over one reservation's instances extends the running-id list and the state map exactly as visiting those instances after the earlier ones does |
| `Ec2.StoppingRecords` | stop_ec2_instances.py:71-77 | `stopping_instances` has one entry per item of the stop answer, in the same order, carrying that item's id, new state name and previous state name |
| `Ec2.ScanReservations` | stop_ec2_instances.py:50-63 | the nested reservation and instance loop produces exactly the running-id list and the state map of the flattened describe answer |
| `Ec2.CollectStopping` | stop_ec2_instances.py:71-77 | the loop over `StoppingInstances` produces exactly the per-item summaries |
| `Ec2.RunningIdsSelectsRunning` | stop_ec2_instances.py:53-60 | `instances_to_stop` is the subsequence of described ids at exactly the positions whose state is `'running'`: reservation-then-instance order is kept, no running instance is missed, and nothing else is included |
| `Ec2.RunningIdsWereRunning` | stop_ec2_instances.py:59-60 | every id chosen for stopping was described in state `'running'` |
| `Ec2.RunningInstanceSelected` | stop_ec2_instances.py:59-60 | every described running instance is chosen for stopping |
| `Ec2.StateMapKeys` | stop_ec2_instances.py:53-57 | `instance_states` has an entry for every described id and for no other id |
| `Ec2.StateMapLastWins` | stop_ec2_instances.py:53-57 | a described id maps to the state of its last occurrence |
| `Ec2.RepeatedIdStoppedButReportedLast` | stop_ec2_instances.py:53-63 | an id described first as running and then as stopped is still chosen for stopping, while the state map reports it as stopped |
| `Ec2.TargetsAreRequested` | stop_ec2_instances.py:48-60 | if the service describes only ids it was asked about, every id chosen for stopping was requested |
| `Handler.RawInstanceIds` | stop_ec2_instances.py:13 | an unset `INSTANCE_IDS` reads as the empty string; a set one, including a set empty one, reads as its value |
| `Handler.EndDateString` | stop_ec2_instances.py:14 | an unset `END_DATE` reads as `2025-08-31`; a set one reads as its value |
| `Handler.RunService` | stop_ec2_instances.py:46-106 | the service path always calls describe first with the given ids, makes at most one more call (a stop with a non-empty list), and returns 500 exactly when it reports a failure, otherwise 200 |
| `Handler.Handle` | stop_ec2_instances.py:6-106 | the handler returns 200, 400 or 500; 400 exactly for the two configuration errors; 500 exactly for a service failure; no service call exactly on the three early exits |
| `Handler.MissingIdsRejected` | stop_ec2_instances.py:13-21 | an unset or empty `INSTANCE_IDS` gives 400 with no service call, whatever the parser, clock and service do |
| `Handler.InvalidEndDateRejected` | stop_ec2_instances.py:26-41 | an end date the parser rejects gives 400 naming the offending string, with no service call |
| `Handler.UnsetEndDateUsesDefault` | stop_ec2_instances.py:14 | with `END_DATE` unset, the string parsed (and named in a 400) is `2025-08-31` |
| `Handler.SchedulingEndedNoOp` | stop_ec2_instances.py:27-35 | past the end date the result is 200 "scheduling period ended" naming the end date, with no service call |
| `Handler.NoOpOnEndDateItself` | stop_ec2_instances.py:27-35 | on the end date itself any instant after midnight is a no-op; only the midnight instant reaches the service |
| `Handler.ServiceReachedIff` | stop_ec2_instances.py:17-48 | the service is called if and only if the raw id string is non-empty, the end date parses, and now is not past it; the first call is always describe with the parsed id list, and the whole response is then that of the service path |
| `Handler.BlankIdsReachDescribe` | stop_ec2_instances.py:17-48 | a non-empty `INSTANCE_IDS` made only of commas and whitespace passes the guard, and describe is called with an empty list |
| `Handler.DescribeFailureIs500` | stop_ec2_instances.py:46-106 | a failing describe gives 500 carrying its error text, and no stop is attempted |
| `Handler.StopCalledIffSomethingRuns` | stop_ec2_instances.py:59-67 | stop is called if and only if some described instance is running, and every stop call carries exactly the running ids in order |
| `Handler.NothingRunningReported` | stop_ec2_instances.py:88-96 | with no running instance the result is 200 "nothing to stop" with the full state map, after only the describe call |
| `Handler.StopSuccessReported` | stop_ec2_instances.py:66-87 | a successful stop gives 200; the reported count is the number of ids sent to stop; there is one summary per stop-answer item, in its order; the full state map is included |
| `Handler.StopFailureIs500` | stop_ec2_instances.py:66-106 | a failing stop gives 500 carrying its error text, after both calls were made |
| `Handler.StoppedIdsAreConfigured` | stop_ec2_instances.py:48-67 | if the service describes only requested ids, every id sent to stop is one of the parsed configured ids |

## Left out

- Construction of the boto3 client (line 44) is not modelled. It sits outside the `try`, so a failure there would escape the handler rather than become a 500. The model's `Service` is always available.
- The real `describe_instances` and `stop_instances` calls are network I/O. They are modelled as the two functions of `Service`. An answer missing a field the handler reads (a `KeyError` inside the `try`) is modelled as that call's `Failure`.
- `os.environ` reads are the `Env` parameter. The `END_DATE` default is explicit in `DefaultEndDate`.
- `datetime.strptime` with `'%Y-%m-%d'` is library behaviour with its own leniencies, such as one-digit months. It is the `parse` parameter. Only its outcome matters: a date, or a `ValueError`.
- `datetime.now(timezone.utc)` is the `now` parameter, at microsecond resolution.
- The `execution_time` timestamps, the `json.dumps` serialisation, `print` logging, and the exact message wording are left out. `Body` keeps the outcome category and the data the messages embed: the end-date string, the count, and the error text.
- The `event` and `context` arguments are left out, because the handler never reads them.
- Idempotence across two invocations is not stated as a lemma. It depends on how the provider changes instance states between calls, and the model does not model that. Within one invocation, `Handle` is a function, so equal inputs give equal responses.
