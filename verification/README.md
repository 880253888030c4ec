# Verification of the plant simulator

This project models the parts of the simulator whose correctness is not obvious
from reading one function, and proves what they promise.

| file | what it models |
|---|---|
| `Readings.dfy` | the two measurement tables, the upserts and the window queries |
| `EnergyIntegration.dfy` | the integration loop and the KPI of one window |
| `KpiWindows.dfy` | how daily and weekly windows over one table fit together |
| `Settling.dfy` | a KPI computed before and after the next reading is loaded |
| `Replay.dfy` | the replay cursor, the batch insert and its statistics |
| `Simulation.dfy` | interleaved pings, the KPI trigger and its boundaries; a whole ping as a run |
| `Backlog.dfy` | when a boundary stays overdue, for any order of completion |
| `Application.dfy` | the application object and its ping handler |
| `Clock.dfy` | the simulated clock with pause, resume, speed and stop |
| `EndToEnd.dfy` | replay, tables, queries and KPI joined, over all schedules |
| `Publishing.dfy` | the messages of a whole run against those of the complete recording |
| `HttpPipeline.dfy` | the HTTP session with its bounded response queue |
| `WebsocketQueue.dfy` | the WebSocket send queue, segment by segment |
| `DataBus.dfy` | the broadcast bus and the lifetime of its sessions |
| `Options.dfy`, `Sets.dfy`, `Seqs.dfy` | an optional value; choosing an element; associativity |

Code that changes state in place is a class here. Each of its methods is proved
against a function of the old state, and the properties are proved of these
functions over all runs. What such a function computes is also stated without it,
in numbers and comparisons of its inputs, so that the function itself is pinned.

## Main results

**Energy.** The reference is a cumulative meter that is unwrapped at resets,
linear between readings and constant outside them. The loop returns the gain of
that meter over the window plus two explicit excess terms, for every list of
rows the query can return. The energy is the meter's gain when neither of two
branches overcounts, whatever the readings, and for readings that are never
negative exactly then. These branches can be seen in the rows: a first interval
that starts before the window and is a reset to a non-zero value, and a last
interval that ends after the window, has a gain, and is a reset or the only
interval. Three tables show a day that fails at each of these guards. Energies
of adjacent windows add up when no inner cut meets such a branch, and exactly
then for readings that are never negative. Under the same condition the weekly
KPI lies between the smallest and the largest daily KPI. For readings that are
never negative a week whose days are all rated is rated, and never above its worst
day, whether the cuts are clean or not.

**Schedules.** Pings interleave freely at the granularity of whole slots and
whole KPI blocks. In every interleaving all samples up to a boundary have been
offered for insertion before its KPI is computed, and the boundaries are fired
once each, a day apart. The rows of a window equal those of the complete
recording exactly when the table holds a reading after the boundary or the
recording never brings one. Otherwise the next reading changes the energy by an
explicit amount, and the KPI is that of the complete recording exactly when this
amount is zero, which can be seen in two rows, or when both KPIs are invalid. The
same condition decides whether two schedules agree, and whether a whole run has
published the KPIs of the complete recording, boundary by boundary.

**Backlog.** The trigger handles one boundary per ping, in the order in which
the pings complete. In every interleaving, and whatever the inserts and the
calculations met, no boundary is overdue at any moment exactly when no completed
ping had reached a second boundary past those reached by the pings completed
before it. For the clock, under any commands, this is a condition on each ping
and its predecessor; at a constant speed it means at most one day per tick.

**Web server.** The HTTP session keeps one read outstanding exactly while its
queue has room and one write exactly while it has work, answers in order, and
halts after a closing or failed write. After a read error it still delivers what
is queued; after the end of the stream or an upgrade it delivers the response in
flight and nothing else. The WebSocket queue never has two writers, although the
write starts after the mutex is released, and holds its front until completion.
A broadcast posts once to each session of its snapshot that is alive at its turn.

## Where the code differs from what one might expect

- A window with exactly two rows is not clipped at its end, and a reset interval
  is never clipped at either end (`KpiWindows.SingleIntervalIsNotClipped`,
  `KpiWindows.ResetAtWindowStartIsNotClipped`,
  `KpiWindows.ResetAtWindowEndIsNotClipped`). `EnergyIntegration.ClosedFormIff`
  says exactly when the energy is right.
- A resume that arrives between the two pause tests of a tick advances the clock
  without a ping. At the default speed this leaves a boundary overdue
  (`Clock.ResumeDuringSleepFallsBehind`). `Clock.ClockKeepsUpIff` says exactly
  when none is.
- Ping threads are detached. If they complete out of order, a boundary can stay
  overdue (`Backlog.OrderOfCompletionMatters`). `Backlog.RunNeverOverdueIff` says
  exactly when none is.
- A KPI that is computed before the first reading after its boundary is loaded
  can differ from the one computed after it (`EndToEnd.SchedulesDisagree`).
  `EndToEnd.KpiOfCompleteRecordingIff` says exactly when it does not: for a window
  with two rows or more and valid KPIs, when the reading before is at the boundary
  itself or shows the same value, or, after a reset, when the next one shows zero.
- A client that pipelines requests and then closes its sending side loses the
  responses that are not yet being written, because the end of the stream shuts
  down the sending side of the server too (`HttpPipeline.HalfCloseLosesAResponse`;
  exactly when: `HttpPipeline.ClosedLosesNothingIff`).
- A quotient of exactly -1, which takes a meter that reads below zero, cannot be
  told from an invalid KPI (`KpiWindows.QuotientOfMinusOne`; exactly when:
  `KpiWindows.KpiIsValidIff`).
- A response that closes the connection stays in the queue after it was sent
  (`HttpPipeline.ClosingResponseStays`).

## Assumptions

- Values are exact reals and times whole seconds; counters are unbounded.
- `get_energy` returns its rows in time order. The SQL text sorts only the two
  outer selects of the UNION.
- One `pingSlot`, one KPI block, one locked segment of the web server are atomic.
- The command "start" meets a quiescent clock: no ping is in progress when the
  cursors are reset and the tables are cleaned.
- The loops of `pingSlot` and `resetIterator` test for the end before they look
  at the sample; the code writes the two tests the other way round.
- 06:00 UTC and the weekday are day arithmetic on the seconds since the epoch
  (section 4.16 of the Base Definitions of POSIX.1-2017), as the time zone
  correction in the code intends.
- dbm keeps the handle of a prepared statement once it has one, and a session
  knows no null handle.

## Model

| member | source | states |
|---|---|---|
| Readings.DataTable.Upsert | database/create_schema.sql:20-27 | the row at the given time holds the new value, all other rows are unchanged |
| Readings.InTimeOrder | database/create_schema.sql:29-44 | the result is time-ordered and holds exactly the selected non-null rows |
| Readings.EnergyRows | database/create_schema.sql:29-44 | get_energy returns exactly the non-null rows from the start to the end of the window, the last one before it and the first one after it, in time order |
| Readings.ProductionRows | database/create_schema.sql:69-73 | get_production returns exactly the non-null rows after the start and up to the end of the window, in time order |
| Readings.GetEnergyIsSlice | database/create_schema.sql:29-44 | the UNION of the three selects is one contiguous slice of the table, one reading wider than the window on either side |
| Readings.GetEnergyIsWindow | database/create_schema.sql:29-44 | with two rows or more, only the first can lie before the window and only the last after it |
| Readings.ProductionStable | database/create_schema.sql:69-73 | rows later than the window never change what get_production returns |
| Readings.EnergyStableIff | database/create_schema.sql:29-44 | rows loaded later change what get_energy returns exactly when they bring the first reading after the window |
| EnergyIntegration.UnwrappedPassesThrough | KpiCalc.cpp:63-98 | the reference meter meets its own value at every reading |
| EnergyIntegration.UnwrappedNeverFalling | KpiCalc.cpp:71-95 | as long as no reading is lower than the one before, equal ones included, the reference meter is the measured one, counted from its first reading |
| EnergyIntegration.UnwrappedAfterReset | KpiCalc.cpp:73-92 | a reading lower than the one before counts with its whole value |
| EnergyIntegration.InterpolationIsLine | KpiCalc.cpp:12-16 | linear interpolation is the straight line through both readings |
| EnergyIntegration.InterpolationIsShare | KpiCalc.cpp:12-16 | linear interpolation between reset-free readings cuts the gain where the reference meter does |
| EnergyIntegration.AccumulatedAll | KpiCalc.cpp:59-98 | the clipped contributions of all intervals add up to the meter's gain over the window plus the two excess terms |
| EnergyIntegration.Calculate | KpiCalc.cpp:32-125 | the two loops, with all their branches, return the KPI defined by the meter's gain over the window, its excess and the total production, or -1 |
| EnergyIntegration.ClosedForm | KpiCalc.cpp:71-88 | whatever the readings, the energy is the meter's gain when neither overcounting branch is met, and is not when exactly one is |
| EnergyIntegration.ClosedFormIff | KpiCalc.cpp:71-88 | for readings never below zero, the energy never falls short of the meter's gain, and equals it exactly when neither overcounting branch is met |
| KpiWindows.EnergyFromMeter | KpiCalc.cpp:59-98 | on a whole table the energy of a window is the difference of one table-wide meter plus an excess that depends on the two cut intervals only |
| KpiWindows.SumIsJoinedPlusGap | KpiCalc.cpp:20-30 | for any number of adjacent windows and any readings, the sum of their energies is that of the joined window plus the excess at the inner cuts |
| KpiWindows.Additivity | KpiCalc.cpp:20-30 | whatever the readings, any number of adjacent windows sum to the joined one when the cuts are clean |
| KpiWindows.AdditivityIff | KpiCalc.cpp:20-30 | for readings never below zero, adjacent windows never sum to less than the joined one, and sum to it exactly when the cuts are clean |
| KpiWindows.WeeklyEnergyIsSumOfDailies | KpiCalc.cpp:20-30 | whatever the readings, the weekly energy is the sum of its seven dailies when the cuts between the days are clean |
| KpiWindows.WeeklyEnergyIsSumOfDailiesIff | KpiCalc.cpp:20-30 | for readings never below zero, exactly then |
| KpiWindows.UnwrappedMonotone | KpiCalc.cpp:63-98 | the reference meter never runs backwards when no reading is negative |
| KpiWindows.KpiIsValidIff | KpiCalc.cpp:100-124 | whatever the readings, -1 is returned exactly for too few rows, no production, non-positive production, a quotient over 30 or a quotient of -1; every other KPI is the quotient |
| KpiWindows.TotalIsSum | KpiCalc.cpp:110-114 | the production is the sum of the values, each counted once |
| KpiWindows.EnergyNeverFalling | KpiCalc.cpp:59-98 | with readings at both ends of a window and none lower than the one before, the energy is the last reading minus the first |
| KpiWindows.EnergyStandingStill | KpiCalc.cpp:59-124 | a meter that stands still uses no energy, and its KPI is 0 if there is production |
| KpiWindows.ConstantLoad | KpiCalc.cpp:59-98 | a constant load is integrated exactly between any two times, both ends interpolated |
| KpiWindows.SentinelIsUnambiguous | KpiCalc.cpp:100-124 | for readings never below zero, -1 is never a quotient and every other KPI lies in [0, 30] |
| KpiWindows.ProductionPartition | database/create_schema.sql:69-73 | adjacent production windows split the rows and the total of the joined one without loss or overlap |
| KpiWindows.KpiIsMediant | KpiCalc.cpp:100-124 | whatever the readings, if every part has a valid KPI within bounds and the cuts are clean, the KPI of the joined window lies within the same bounds |
| KpiWindows.WeeklyIsMediantOfDailies | KpiCalc.cpp:20-30 | the same for a week and its seven days |
| KpiWindows.KpiNeverAboveWorst | KpiCalc.cpp:100-124 | for readings never below zero, if every part has a valid KPI up to a bound, the joined window has one too, whatever the cuts |
| KpiWindows.WeeklyNeverAboveWorstDay | KpiCalc.cpp:20-30 | the same for a week and its seven days |
| KpiWindows.SingleIntervalIsNotClipped | KpiCalc.cpp:71-79 | a table without a reset and a day whose energy is twice the meter's gain, because its window has only one interval |
| KpiWindows.ResetAtWindowStartIsNotClipped | KpiCalc.cpp:73-74 | a table and a day whose energy exceeds the meter's gain because a reset interval begins before the day |
| KpiWindows.ResetAtWindowEndIsNotClipped | KpiCalc.cpp:80-83 | a table and a day whose energy exceeds the meter's gain because a reset interval ends after the day |
| KpiWindows.ExcessesCanCancel | KpiCalc.cpp:71-84 | with a reading below zero, a table and a day on which both branches overcount and the energy is right all the same |
| KpiWindows.QuotientOfMinusOne | KpiCalc.cpp:116-124 | a table and a day whose quotient is exactly -1 and reads like an invalid KPI |
| KpiWindows.InsertUnwrapped | KpiCalc.cpp:12-16 | a sample on the line between two reset-free readings leaves the reference meter unchanged at every time |
| KpiWindows.CollinearRefinement | KpiCalc.cpp:63-98 | such a sample leaves the energy of every window that met the closed form unchanged, with no condition on the new table |
| Settling.NextRow | database/create_schema.sql:29-44 | once the first reading after a window is loaded, the query returns exactly one row more, at the end |
| Settling.EnergyWithNext | KpiCalc.cpp:80-97 | that row changes the energy by its value if it is a reset, and otherwise by the share of its interval up to the end of the window |
| Settling.AddedZeroIff | KpiCalc.cpp:80-88 | this change is zero exactly when the row is a reset to zero, or is no reset and the reading before is at the end of the window or shows the same value |
| Settling.SameKpiIff | KpiCalc.cpp:32-125 | two tables of one recording, loaded up to the end of a window or further, give it the same KPI exactly when both or neither hold a later reading, or that reading changes nothing, or both KPIs are invalid |
| Replay.TallyAddsUp | Daq.cpp:45-53 | every record of a batch is either stored or failed; a batch reuses a prepared statement at most once and only if it stored something |
| Replay.StatisticsConserved | Daq.cpp:169-233 | over any run of inserts: operations, records and exceptions are conserved, and statement reuses exceed neither the records written nor the connections acquired |
| Replay.FailedAreLost | Daq.cpp:203-218 | with a connection, the failures of a batch are exactly its records that do not reach the table |
| Replay.ReusedIff | Daq.cpp:45-53 | a batch counts a reuse exactly if the first query that leaves a handle succeeds and the session knew this handle |
| Replay.CountedIsOutcome | Daq.cpp:169-233 | every counter after one insert, from the number of failed queries, the reuse, and whether there was a connection |
| Replay.StoreDecides | Daq.cpp:203-218 | after a batch, the row at a time holds the last sample for that time whose query succeeded, NULL included |
| Replay.StoreKeeps | Daq.cpp:203-218 | every other row is what it was |
| Replay.StoreOfDistinct | Daq.cpp:203-218 | in a batch of distinct times each sample is in the table if its query succeeded and leaves its row unchanged otherwise |
| Replay.NewestFirstReversedIsSorted | Daq.cpp:161-167 | a file with the newest sample first yields sorted data |
| Replay.Daq.constructor | Daq.cpp:161-167 | the data is the file reversed, the cursor at its beginning |
| Replay.Daq.ResetIterator | Daq.cpp:83-99 | the cursor stops at the first sample not before the given time; it fails exactly if the data has none |
| Replay.Daq.PingSlot | Daq.cpp:61-81 | the batch is the data from the old cursor to the first sample after the ping; the table and the statistics change as the outcome of its queries says |
| Replay.Daq.InsertData | Daq.cpp:169-233 | the records whose query succeeded are upserted in order, the others are lost, and every counter is updated accordingly |
| Replay.BatchesAreOneSlice | Daq.cpp:61-81 | on any data the batches of any pings concatenate to one contiguous slice |
| Replay.CursorOfLatest | Daq.cpp:61-81 | on sorted data the cursor depends on the latest ping only |
| Replay.ExactlyOnceReplay | Daq.cpp:61-99 | after a reset the batches of any pings hold exactly the samples from the start to the latest ping, each once, in order |
| Simulation.SixAmIsToday | Application.cpp:265-274 | the first boundary is 06:00 UTC on the day of the initial time |
| Simulation.WeekdayOfCalendar | Application.cpp:224-228 | the weekday is that of the calendar: day 0 of the epoch is a Thursday, the days follow each other and last 24 hours |
| Simulation.RunKeepsInvariant | Application.cpp:194-252 | after any run, in every interleaving, the cursors are past all finished slots and between two sample times, and the boundaries are evenly spaced |
| Simulation.PublishedByKpiBlock | Application.cpp:205-248 | a ping that reaches the boundary publishes the KPI of the 24 hours before it and then, on a Sunday, that of the seven days before it, each under its own tag with the time of the ping, except what fails |
| Simulation.OthersPublishNothing | Application.cpp:185-205 | nothing else publishes a KPI |
| Simulation.KpiReadiness | Application.cpp:194-214 | in every interleaving, when a boundary fires every sample from the start up to the boundary has been offered for insertion |
| Simulation.FiredBoundaries | Application.cpp:205-252 | the k-th boundary fired is k days after the first, none skipped or repeated, each at 06:00 UTC |
| Simulation.OneSundayInSeven | Application.cpp:228-232 | exactly one of any seven consecutive boundaries is a Sunday |
| Simulation.WeeklyTiling | Application.cpp:228-251 | weekly windows of consecutive Sundays meet end to start and cover exactly the daily windows between them |
| Simulation.WholePingIsRun | Application.cpp:185-255 | a ping that runs alone extends any run to a run, whatever its inserts and calculations meet, so everything proved of runs holds of it |
| Backlog.BoundaryAfterIsFirst | Application.cpp:250-251 | the boundary after a time is the first of the boundaries 24 hours apart that lies after it |
| Backlog.NeverOverdueIff | Application.cpp:205-252 | for any completion order, no boundary is ever overdue exactly when no ping reaches a second boundary past those reached before it; the next boundary is then the first one unreached |
| Backlog.NextOfRun | Application.cpp:205-252 | in every interleaving the next boundary depends only on the times of the completed pings, in completion order |
| Backlog.RunNeverOverdueIff | Application.cpp:185-255 | in every interleaving, no boundary is overdue in any state of the run exactly under that condition on the completed pings |
| Backlog.SerialRun | Application.cpp:185-255 | pings processed one after the other, with any failures, form a valid run that completes them in order |
| Backlog.SerialNeverOverdueIff | Application.cpp:185-255 | such a run never leaves a boundary overdue exactly under that condition on its pings |
| Backlog.NoBacklog | Application.cpp:205-252 | pings at most a day apart, the first at the initial time, meet that condition |
| Backlog.KeepsUpIffOneDayPerTick | main.cpp:47-51 | a clock of constant speed keeps up with the boundaries for ever exactly when it runs at most one day per tick, which is the default speed |
| Backlog.OrderOfCompletionMatters | Application.cpp:185-254 | two runs of the same steps on any recording, three pings in progress at once: completed in order nothing is ever overdue, completed in reverse a boundary stays overdue |
| Application.InitialTime | Application.cpp:32-34 | not before two weeks after the first sample of either recording, and exactly two weeks after one of them |
| Application.Application.ResetIterators | Application.cpp:257-278 | the initial state of the state machine, or failure exactly when a recording has no sample left; then the boundaries are untouched, and so is the second cursor if the first recording has none left |
| Application.Application.KpiSlot | Application.cpp:205-252 | the published messages, the boundaries and the next boundary after one trigger test |
| Application.Application.OnTimePing | Application.cpp:185-255 | a ping that runs alone is the four steps arrive, energy, production, trigger of the state machine |
| Clock.TimeReference.WorkerTask | TimeReference.cpp:78-109 | the pings and the final time of a worker under any commands, up to the stop; a stop during the sleep still lets the tick advance |
| Clock.LastSet | TimeReference.cpp:27-38 | the last command for the speed or the pause flag decides it, whatever came before and whatever other commands follow |
| Clock.Unchanged | TimeReference.cpp:18-38 | without a command for a setting it stays; the worker runs on exactly if no stop is among the commands |
| Clock.TicksSee | TimeReference.cpp:87-105 | the ticks go on exactly until the first loop test after a stop, and each sees the settings after all commands received up to its two tests |
| Clock.AdvancesBySpeedLastSet | TimeReference.cpp:102-104 | each tick not paused advances by the speed last set before the end of its sleep |
| Clock.PingsUnlessPaused | TimeReference.cpp:91-98 | each tick pings with the current time unless the last pause command before its loop test, or the initial setting, paused it |
| Clock.SlowDownAndStop | TimeReference.cpp:87-105 | a run that slows down before its second tick and is stopped during the sleep of its third: its pings and its final time |
| Clock.PingsNeverGoBack | TimeReference.cpp:87-105 | pings never go backwards and lie between the start and the current time |
| Clock.ClockKeepsUpIff | TimeReference.cpp:87-105 | under any commands, if the pings complete in order, no boundary is ever overdue exactly when each ping comes less than a day after the first boundary that its predecessor had not reached |
| Clock.SteadyTicksSteadyPings | TimeReference.cpp:87-105 | if no tick advances by more than a day or resumes during its sleep, successive pings are at most a day apart |
| Clock.SteadyClockKeepsUp | TimeReference.cpp:87-105 | such a clock never leaves a boundary overdue |
| Clock.ResumeDuringSleepFallsBehind | TimeReference.cpp:91-105 | a pause and a resume during the next sleep, at the default speed, leave a boundary overdue |
| EndToEnd.TablesAreLoaded | Daq.cpp:61-81 | in a run without failures the tables hold exactly the samples the cursors have passed |
| EndToEnd.LoadedExtendsLater | Daq.cpp:61-81 | what a longer replay adds lies later than everything a shorter one loaded |
| EndToEnd.WindowsCompleteIff | database/create_schema.sql:29-44 | when a boundary fires its production rows are final, and its energy rows are those of the complete recording exactly if a reading after the boundary is there or never comes |
| EndToEnd.KpiOfCompleteRecordingIff | Application.cpp:194-251 | the daily and the weekly KPI of a firing are those of the complete recording exactly under that condition |
| EndToEnd.ScheduleIndependenceIff | Application.cpp:185-255 | two schedules of one recording agree on the daily and on the weekly KPI of a boundary exactly under that condition on their two tables |
| EndToEnd.SchedulesDisagree | Application.cpp:205-251 | a recording and two schedules, one without a reading beyond the boundary, that publish different KPIs for the same day |
| Publishing.FiringsAreFired | Application.cpp:205-252 | the firings of a run are its fired boundaries, each once and in order |
| Publishing.WeekendRun | Application.cpp:205-251 | a recording and a run over a Saturday and a Sunday with the three messages it publishes |
| Publishing.PublishesCompleteIff | Application.cpp:194-252 | a run without failed inserts has published exactly what its firings would announce from the complete recording, in order, if and only if every one of them met that condition |
| HttpPipeline.RunKeepsInv | webserver/HttpSession.h:144-208 | any run of events keeps the coupling of queue, outstanding read and outstanding write, and the order of the responses |
| HttpPipeline.AssertionHolds | webserver/HttpSession.h:47 | in no reachable state can a write complete with an empty queue, so the assertion never fails |
| HttpPipeline.BackPressure | webserver/HttpSession.h:38-53 | in every reachable live state at most 8 items, one read exactly below the limit, one write exactly with work, hence never stalled |
| HttpPipeline.RestsOnlyWhenFinished | webserver/HttpSession.h:144-208 | exactly when a session has nothing outstanding, and that without a failure everything was delivered by then |
| HttpPipeline.OutputHalts | webserver/HttpSession.h:185-200 | after a closing or failed write no write starts, nothing is delivered, and at most 7 more requests are answered |
| HttpPipeline.InputHalts | webserver/HttpSession.h:148-173 | after end of stream, read error or upgrade no read starts and no request is answered |
| HttpPipeline.ClosingResponseStays | webserver/HttpSession.h:185-194 | a delivered response that closes the connection stays at the front of the queue for ever |
| HttpPipeline.Drains | webserver/HttpSession.h:154-157 | after a read error, k good writes deliver the next k queued responses in order |
| HttpPipeline.DrainedIff | webserver/HttpSession.h:154-208 | after a read error the queue is empty and the session at rest after exactly as many good writes as it held |
| HttpPipeline.ClosedDelivers | webserver/HttpSession.h:148-173 | after the end of the stream or an upgrade, over any run nothing is delivered but the response whose write was in flight |
| HttpPipeline.ClosedLosesNothingIff | webserver/HttpSession.h:210-217 | the client can then still get every response exactly when none is queued, or one whose write is in flight |
| HttpPipeline.HalfCloseLosesAResponse | webserver/HttpSession.h:148-173 | after two pipelined requests and the end of the stream or an upgrade, no continuation delivers both responses |
| HttpPipeline.ReadErrorLosesNothingIff | webserver/HttpSession.h:154-157 | after a read error every queued response can still reach the client exactly when none but the last closes the connection |
| HttpPipeline.MalformedRequestLosesNothing | webserver/HttpSession.h:154-157 | after two pipelined keep-alive requests and a malformed one, both responses can still be delivered |
| HttpPipeline.OnlyClosingWritesShutDown | webserver/HttpSession.h:185-200 | a closing write shuts down the sending side even if it failed, no other write does, and only a success counts as delivered |
| HttpPipeline.ResponsesInOrder | webserver/HttpSession.h:45-91 | delivered responses are a prefix of the answers in request order, followed by the queue, one on the wire at a time |
| HttpPipeline.OneResponsePerRequest | webserver/HttpHandleRequest.h:121-168 | over any run the answers are one per request, in request order |
| HttpPipeline.AnswerOfRequest | webserver/HttpHandleRequest.h:121-168 | a request is answered under its own number with the status of its outcome, closing exactly if it does not ask to keep the connection |
| HttpPipeline.HttpSession.HandleRequest | webserver/HttpHandleRequest.h:121-168 | every path queues exactly one response, with the status of that path |
| HttpPipeline.HttpSession.OnReadEvent | webserver/HttpSession.h:144-183 | with any request, end of stream, error or upgrade, the read handler does what the read event of the state machine does |
| HttpPipeline.HttpSession.QueueOnWrite | webserver/HttpSession.h:45-53 | takes off the front, starts the next write if there is one, and reports whether the queue was full before |
| HttpPipeline.HttpSession.OnWriteEvent | webserver/HttpSession.h:185-208 | in every state that keeps the invariant the write handler finds the queue non-empty and does what the write event of the state machine does |
| WebsocketQueue.RunKeepsInv | webserver/WebsocketSession.cpp:16-78 | any interleaving of segments of any threads keeps one writer, work exactly with a writer, and first-in first-out order |
| WebsocketQueue.NeverUndefined | webserver/WebsocketSession.cpp:46-77 | in no reachable state does the unprotected front or the pop meet an empty queue |
| WebsocketQueue.OneWriterAtATime | webserver/WebsocketSession.cpp:16-78 | in every interleaving at most one write is owed, in flight or being popped, and one exactly while the queue is non-empty and no write failed |
| WebsocketQueue.FrontIsHeld | webserver/WebsocketSession.cpp:66-77 | from the unlock to the completion nothing leaves the queue, so the message written is the one at the front when the mutex was released |
| WebsocketQueue.CompletedIsPrefix | webserver/WebsocketSession.cpp:43-78 | what a client received is a prefix of what its queue accepted, and all of it once the queue is empty |
| WebsocketQueue.FailureHalts | webserver/WebsocketSession.cpp:47-51 | after a failed write nothing is written any more |
| WebsocketQueue.HistoriesAreTrue | webserver/WebsocketSession.cpp:16-55 | over any run the queue accepted exactly the messages of its pushes, in order, and completed are exactly the successful writes |
| WebsocketQueue.PostedIsPushed | webserver/WebsocketSession.cpp:16-24 | a message waits for the lock whatever other threads do, and is then put at the end of the queue |
| WebsocketQueue.WebsocketSession.OnSend | webserver/WebsocketSession.cpp:20-31 | appends under the lock and owes a write exactly if the queue was empty |
| WebsocketQueue.WebsocketSession.AsyncWriteFront | webserver/WebsocketSession.cpp:36-40 | started without the lock: the message at the front goes into flight, the queue does not change |
| WebsocketQueue.WebsocketSession.OnWrite | webserver/WebsocketSession.cpp:43-51 | the message leaves the wire, delivered or failed, and only a success goes on to pop |
| WebsocketQueue.WebsocketSession.PopFront | webserver/WebsocketSession.cpp:57-67 | takes off the front under the lock and owes a write exactly if something is left |
| DataBus.PointersStaySound | webserver/WebsocketDataBus.cpp:16-44 | every pointer the bus holds names a session that has not finished unregistering |
| DataBus.SnapshotIsSafe | webserver/WebsocketDataBus.cpp:55-62 | a snapshot never touches the memory of a session that is gone |
| DataBus.SessionsAreRegistered | webserver/WebsocketDataBus.cpp:16-44 | in any run the bus knows exactly the sessions that registered and have not unregistered since |
| DataBus.SnapshotVisitsRegistered | webserver/WebsocketDataBus.cpp:51-62 | a broadcast visits exactly these, each once |
| DataBus.AliveUntilReleased | webserver/WebsocketDataBus.cpp:64-66 | a weak reference can be promoted exactly from the creation of the session until its last strong reference is released |
| DataBus.ExactlyOnceToTheLiving | webserver/WebsocketDataBus.cpp:51-67 | a finished broadcast was posted exactly once to each session of its snapshot still alive, at most once to the others, to nobody else |
| DataBus.DyingGetsNothing | webserver/WebsocketDataBus.cpp:64-66 | a session whose destructor has begun before its turn gets nothing, whatever happens later |
| DataBus.PostedIffAliveAtTurn | webserver/WebsocketDataBus.cpp:64-66 | in any run, the session whose turn it is gets one post if it is alive then, even if it dies right after, and none otherwise |
| DataBus.WebsocketDataBus.RegisterSession | webserver/WebsocketDataBus.cpp:16-21 | the session is added and no other changes |
| DataBus.WebsocketDataBus.UnregisterSession | webserver/WebsocketDataBus.cpp:23-44 | the session is gone, no other changes, and the result says whether it was there |
| DataBus.WebsocketDataBus.Clients | webserver/WebsocketDataBus.cpp:55-62 | the snapshot names every registered session exactly once |
| DataBus.MessageToWebclients | webserver/WebsocketDataBus.cpp:64-66 | for any pattern of liveness exactly the living clients are posted to, none twice |

## Left out

- Floating-point rounding, and counters that wrap around after 2^64 operations.
- Sockets, the HTTP and WebSocket libraries, MySQL and the connection pool: their completions and failures are events or parameters of the environment.
- Exceptions other than failed acquires and failed queries inside an insert, and a failed database connection of the KPI thread, which ends the program.
- Data races between two runs of the same slot: a slot is one atomic step.
- NULL values inside query results: the queries filter them, so the default of the KPI code is never used.
- The scope guard that counts failed acquires is written out on the failing path instead of being an object with a destructor.
- The converse of the closed form and of additivity when a reading is below zero: two excesses of opposite sign can cancel (`KpiWindows.ExcessesCanCancel`).
- `status`, `calc_id`, statistics messages and logging: output only.
- Parsing of the data file, its text and locale handling: the parsed samples are the input.
- MIME types, path handling and file access of the HTTP handler: only that each path sends one response.
- JSON, the front end and the command line.
- HttpPipeline.HttpSession.OnReadEvent: `remote_endpoint()` (webserver/HttpSession.h:160) throws out of the read handler when the peer is already gone; here it does not throw.
- HttpPipeline.HttpSession.HandleRequest: a send that throws after it queued its response, inside the try block (webserver/HttpHandleRequest.h:141-152), would be followed by a second send; sending does not throw here.
- What becomes of a write in flight when its socket is handed over or its sending side shut down: it may succeed or fail.
- DataBus.MessageToWebclients: the order of posts to different clients is not stated; no client can observe it.
