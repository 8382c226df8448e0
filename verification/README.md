# Verified model of the wastlernet exporter

wastlernet polls and listens to devices in a house (heating, inverters, battery, Shelly sensors) and
writes what they report to TimescaleDB, with Prometheus metrics along the way. This project models the
parts of it that decode, schedule, connect, count and store, and proves what they promise, over all
inputs and over whole runs.

`dafny verify dfyconfig.toml` checks everything.

## Files

| file | component |
|---|---|
| Bits.dfy | shared theory: positional values, shift/or/mask on naturals bit by bit, two's complement at any width, JavaScript's 32-bit operators |
| BTHome.dfy, Grouping.dfy, BTHomePacket.dfy | the BTHome decoder of the Shelly script: one object, the result object, whole packets |
| Json.dfy, Topics.dfy, ShellyMessages.dfy | the JSON payload of an MQTT message and the record it fills |
| Timescale.dfy, ShellyModule.dfy, ShellyRuns.dfy | statements, transactions, the message handler, and runs of messages |
| PayloadRows.dfy | from the fields of a payload to database rows |
| EndToEnd.dfy | radio bytes to database rows |
| Polling.dfy, Shutdown.dfy | the polling loop and stopping it |
| Retry.dfy, Modbus.dfy | backoff and the Modbus connection |
| MetricCalls.dfy, Metrics.dfy, MetricsThreads.dfy | the metrics cache, its log, and threads |
| Registers.dfy, Binary32.dfy | register, bit set and float decoding |
| Scanner.dfy, Chars.dfy | the Hafnertec number scanner, and character classes |
| SelectServer.dfy | the select loop of the Modbus debug server |
| Lifecycle.dfy | starting and stopping the Shelly MQTT client |
| Fronius.dfy | the energy balance |
| Wrappers.dfy | Option and Result |

## How the sources are modelled

- A method of the source that updates fields is a method of a class with those fields; its contract ties
  the new state to a function of the old one, and the theorems are about that function. Loops are loops.
- An exception is a `Failure` result. What the outside world answers (sockets, database, JSON text,
  clock, library calls) is a parameter, so a theorem about all parameters covers every answer.
- Functions such as `Parse`, `Grouped`, `Reported`, `RowsOf`, `Lag`, `TallyOf`, `Events` and `Decimal`
  are the specifications the methods are proved against; the lemmas say what those functions mean.
- Scale factors, temperatures and powers are exact reals.

## Results that differ from the documentation or the likely intent

- `utoi` is two's complement for every value of its width exactly for widths up to 30 (`UtoiExact`); the
  decoder uses 8, 16 and 24.
- The polling loop never skips a cycle after a long pause, although base/module.h:130-132 allows it:
  late queries run back to back (`Polling.NoTickSkipped`).
- A second `Init` of a Modbus connection is not a no-op as base/modbus_connection.h:63 says: it drops a
  context that is never freed (`Modbus.SecondInitLeaks`); `Modbus.LeakFreeRuns` says exactly when no context
  is lost. Without a probe address callbacks may then also receive a null or unconnected context
  (`Modbus.UnprobedSecondInit`): they are safe exactly if, once some `Init` has established the connection,
  the last one before each `Execute` has (`Modbus.UnprobedCallbacksSafe`).
- The key of the device counter cache is ambiguous when one service name continues another with a bar.
  `Metrics.DeviceCountersExact` proves that the counters are right for all devices if and only if this
  does not happen; the program uses the single service "shelly".
- `parse_numeric` passes the index of the last digit as a length. That is harmless when the first digit
  is not at index 0, and otherwise loses the last digit of the text; `Scanner.ScansFromStart` says exactly
  when the value survives, and `Scanner.LosesLastDigit` gives a text for which it does not. A text with
  one digit reads as 0, which is right only for the digit 0 (`Scanner.SingleDigit`). `Scanner.ScansExactly`
  puts all texts into one condition.
- A Shelly `Start` that cannot create a client leaves the library initialised once more
  (`Lifecycle.ClientsConserved` counts these calls).
- Object 0x3a is two bytes wide in the script's table; the published BTHome v2 format is not claimed for
  it.

## Model

| member | source | states |
|---|---|---|
| Bits.BitwiseByBit | shelly/blu-to-mqtt.js:74-94 | the model's and/or are the bitwise ones: every bit of the result is the Boolean combination of the operands' bits, at any width |
| Bits.AndMaskIsMod | shelly/blu-to-mqtt.js:84-94 | masking with 2^k - 1 is the remainder mod 2^k, for all k |
| Bits.ShiftOrIsPositional | base/modbus_connection.cpp:101-117 | shifting digits of any width to their places and or-ing them gives the positional value, for any number of digits |
| Bits.ToInt32IsSigned | shelly/blu-to-mqtt.js:75-76 | the wrap of JavaScript's 32-bit operators is the only value of the signed 32-bit range congruent to its argument |
| Bits.SignedIsUnique | base/modbus_connection.cpp:84-107 | the signed reading of an n-bit pattern is the only value of the signed range that is congruent to it mod 2^n, for all n |
| Bits.DigitsRoundTrip | shelly/blu-to-mqtt.js:84-94 | encoding a number in n digits of any base and reading it back returns it |
| BTHome.UtoiExact | shelly/blu-to-mqtt.js:74-77 | with JavaScript's 32-bit shifts, utoi is two's complement for every number of a width between 1 and 32 if and only if the width is at most 30 |
| BTHome.ShiftMaskIsPositional | shelly/blu-to-mqtt.js:78-94 | the unsigned getters return the little-endian positional value of their bytes |
| BTHome.GetBufValue | shelly/blu-to-mqtt.js:98-108 | null exactly when the buffer is shorter than the type; else, type by type, the little-endian sum of its bytes or the only number of the signed 8-, 16- or 24-bit range congruent to it |
| BTHome.RawValueExact | shelly/blu-to-mqtt.js:84-108 | the same of the specification that the packet theorems use |
| BTHome.RawRoundTrip | shelly/blu-to-mqtt.js:78-108 | every in-range value of every type survives encoding and decoding |
| BTHome.BytesRoundTrip | shelly/blu-to-mqtt.js:78-108 | every byte string of a type's length decodes to an in-range value that encodes to the same bytes |
| Grouping.GroupedAppend | shelly/blu-to-mqtt.js:136-149 | setting, promoting to an array or pushing, one value at a time, yields the object that holds each name's values in order |
| Grouping.GroupedLists | shelly/blu-to-mqtt.js:136-149 | a name is a property exactly if it was reported; it holds the scalar if it was reported once and the array of its values, in order, otherwise |
| Grouping.ValuesInOrder | shelly/blu-to-mqtt.js:136-149 | the values under a name are those of the items with that name, in order of arrival |
| BTHomePacket.ParseIsComplete | shelly/blu-to-mqtt.js:125-152 | every body is the encoding of the readings found in it followed by a tail that stops the decoder (empty, unknown id, or value cut short); each reading takes 1 + size bytes |
| BTHomePacket.ParseEncoded | shelly/blu-to-mqtt.js:125-152 | an encoded list of readings followed by any stopping tail decodes to that list |
| BTHomePacket.ParseExact | shelly/blu-to-mqtt.js:125-152 | a list is what the decoder finds in a body if and only if it is valid and the body is its encoding plus a stopping tail |
| BTHomePacket.ParsePrefix | shelly/blu-to-mqtt.js:125-152 | cutting a body at any byte cuts its list of readings and changes none that remains |
| BTHomePacket.Unpack | shelly/blu-to-mqtt.js:111-124 | the script's method: null for an empty packet or a wrong version, the header alone if encrypted, else the grouped readings |
| BTHomePacket.HeaderByte | shelly/blu-to-mqtt.js:111-124 | an object is returned exactly if the top three bits of the first byte are 2; with its lowest bit set it is the two header fields alone, else it contains them |
| BTHomePacket.UnpackBody | shelly/blu-to-mqtt.js:125-153 | the object loop ends with exactly the header fields and the grouped readings of the body |
| BTHomePacket.RoundTrip | shelly/blu-to-mqtt.js:48-153 | for every list of valid readings, unencrypted version-2 header, stopping tail and name: the decoded property is absent, the scaled value, or the array of scaled values in order of arrival (ids that share a name merged); the header fields are never overwritten |
| BTHomePacket.TruncationIsMonotone | shelly/blu-to-mqtt.js:98-153 | for every packet cut after its header byte: same header fields, and each name's values are a prefix of its values in the whole packet |
| BTHomePacket.FirstObject | shelly/blu-to-mqtt.js:48-72 | a body's first object is read exactly if its id is one of the thirteen of the table and all its one, two or three bytes are there; the rest is read in the same way |
| BTHomePacket.FirstNumber | shelly/blu-to-mqtt.js:48-108 | the number of each object, byte by byte: ids 0x02, 0x3f and 0x45 are signed, 0x05 has three bytes |
| BTHomePacket.ReportedAs | shelly/blu-to-mqtt.js:48-62 | the property name and scale of each id |
| BTHomePacket.SignedObjects | shelly/blu-to-mqtt.js:48-153 | a packet with one temperature or rotation decodes to its value in hundredths or tenths, below zero exactly if the top bit of its second byte is set |
| Topics.SplitJoin | shelly/shelly_module.cpp:168-175 | splitting a topic at slashes inverts joining slash-free parts |
| Topics.EmptyDeviceName | shelly/shelly_module.cpp:168-175 | the derived device name is empty exactly for the empty topic |
| Topics.DeviceNameOfParts | shelly/shelly_module.cpp:168-175 | the device name is the second and third part of the topic joined by a dash, or the topic if it has fewer parts |
| ShellyMessages.ReadPayload | shelly/shelly_module.cpp:165-224 | the handler's reading part throws exactly if a present section is unreadable; otherwise it reports whether any section was present and the record with each field taken from its own source |
| ShellyMessages.ReadStatus | shelly/shelly_module.cpp:177-199 | the thermometer and light sections of a status notification, with their errors |
| ShellyMessages.ReadEnergy | shelly/shelly_module.cpp:201-209 | the energy section is filled exactly if all four fields are present, and throws exactly if one is no number |
| ShellyMessages.ReadBluetooth | shelly/shelly_module.cpp:211-224 | forwarded illuminance replaces the lux and keeps the illumination; motion is true exactly for 1 |
| PayloadRows.ReadableExact | shelly/shelly_module.cpp:177-224 | which payloads the handler reads without an exception, field by field |
| PayloadRows.HasDataExact | shelly/shelly_module.cpp:177-226 | a readable message has data exactly if one of its sections is present |
| PayloadRows.EnergyRowExact | shelly/shelly_module.cpp:201-209 | from payload to row: power, voltage, current and frequency are the numbers apower, voltage, current and freq, and there is no row unless all four are there |
| PayloadRows.TemperatureRowExact | shelly/shelly_module.cpp:177-189 | the row holds tC of temperature:0 and rh of humidity:0 of a status notification, NULL for what is missing, and does not exist without either |
| PayloadRows.LightRowExact | shelly/shelly_module.cpp:190-216 | the lux are those forwarded from a Bluetooth sensor if there are any, else the relay's own; the text is the relay's own |
| PayloadRows.MotionRowExact | shelly/shelly_module.cpp:218-222 | a motion row exists iff motion is forwarded, true iff the integer part of the number is 1 |
| Timescale.Write | shelly/shelly_timescaledb.cpp:75-137 | rejects exactly the empty device; throws exactly if one of the record's rows needs a statement that was not prepared or is refused; otherwise the transaction holds the record's rows |
| Timescale.WriteTemperature | shelly/shelly_timescaledb.cpp:83-97 | the statement chosen by presence inserts one row with the present values and NULL for the others, or nothing |
| Timescale.WriteLight | shelly/shelly_timescaledb.cpp:99-113 | the same for lux and illumination |
| Timescale.WriteEnergy | shelly/shelly_timescaledb.cpp:115-123 | the energy row has each value in its own column |
| Timescale.WriteMotion | shelly/shelly_timescaledb.cpp:125-134 | the motion row exists exactly if the value does |
| Timescale.RowsExact | shelly/shelly_timescaledb.cpp:83-134 | which rows a record stands for, column by column |
| Timescale.TimescaleConnection.Init | timescaledb/timescaledb-client.h:76-86 | which connection object is held after success and after each failure, and how many of its statements are usable when preparing them stopped half-way |
| Timescale.TimescaleConnection.Reconnect | timescaledb/timescaledb-client.h:89-106 | keeps a live connection, replaces a dead one, and holds none when none can be constructed |
| Timescale.TimescaleConnection.Update | timescaledb/timescaledb-client.h:109-128 | OK exactly if the connection is alive or replaced with all eight statements, the transaction opens, the device is named, each row's statement is prepared and accepted, and the commit succeeds; then the table gains exactly the record's rows; otherwise it gains all or none, and some only if the commit was in doubt |
| ShellyModule.Module.Update | base/module.h:92-95 | the cached state becomes the record, whatever the database does |
| ShellyModule.Module.HandleMqttMessage | shelly/shelly_module.cpp:159-246 | the metrics calls, table rows, connection and cache that one message leaves, and the status returned |
| ShellyModule.Module.OnMessage | shelly/shelly_module.cpp:60-88 | a payload that is not JSON is counted as an error and nothing else happens |
| ShellyModule.Module.Serve | shelly/shelly_module.cpp:60-88 | a run of messages leaves the log, rows, connection and cache of the runs the theorems are about, for every run that finds a connection object for each message with data |
| ShellyModule.SurvivalIsKeepingConnections | timescaledb/timescaledb-client.h:89-106 | those are exactly the runs in which a message with data that another one follows keeps or replaces the connection object |
| ShellyRuns.OneRowPerSection | shelly/shelly_timescaledb.cpp:83-134 | a message with data stands for one row per reported section, between 1 and 4, all of its topic's device, no two in one table |
| ShellyRuns.WorkingDatabaseVerdict | shelly/shelly_module.cpp:226-246 | with a working database, alive or reconnected: a message is counted ok iff it is readable, reports data, has a topic and needs only prepared statements (no restriction once all are), and its rows are then added; ignored iff readable without data; an error otherwise |
| ShellyRuns.VerdictExact | shelly/shelly_module.cpp:226-246 | against any database, a message is counted ok iff it has data and a topic, the connection is alive or fully replaced, the transaction opens, each row is accepted, and the commit succeeds |
| ShellyRuns.MessagesConserved | shelly/shelly_module.cpp:83-87 | over every run: messages handled = ok calls + error calls + ignored messages |
| ShellyRuns.DeviceUpdatesConserved | shelly/shelly_module.cpp:226-229 | over every run: a device's update counter is called once per message with data from it, stored or not |
| ShellyRuns.TablesAreCountedRows | timescaledb/timescaledb-client.h:117-123 | over every run: the tables hold exactly the rows of the messages counted ok, in order, iff no commit was applied whose answer was lost; otherwise they hold more |
| ShellyRuns.CacheShowsLastSample | base/module.h:92-95 | over every run: the state cache shows the last message with data, stored or not |
| ShellyRuns.ExportRun | shelly/shelly_module.cpp:226-236 | a new metrics object that gets the calls of any run exports exact counts: for each device its messages with data, and the messages counted ok and counted as errors |
| EndToEnd.ScanCB | shelly/blu-to-mqtt.js:177-207 | publishes exactly for a scan result with service data and a listed address while connected; the message goes to the fixed topic and has the address, the name, the strength if known, and the decoded packet |
| EndToEnd.ServiceJsonExact | shelly/blu-to-mqtt.js:111-198 | the published service data has the decoder's properties, each Boolean, number or array as such |
| EndToEnd.RadioToRows | shelly/blu-to-mqtt.js:111-198 | for every advertisement: malformed iff illuminance or motion repeats; otherwise a light row (raw / 100 truncated) iff illuminance was read once and a motion row (true iff raw is 1) iff motion was; none if encrypted or of another version |
| EndToEnd.RadioToTables | shelly/shelly_module.cpp:211-238 | with a working database, alive or reconnected, exactly these rows are added |
| EndToEnd.SensorPacket | shelly/blu-to-mqtt.js:111-198 | one packet byte by byte: header, three bytes of illuminance and one of motion give a light row with whole lux and a motion row for relais-flur_werkstatt |
| EndToEnd.RadioRunToTables | shelly/blu-to-mqtt.js:177-207 | for every run of radio events with a working database: the tables hold exactly the rows of the published advertisements, in order, and the run survives |
| EndToEnd.Relay | shelly/shelly_module.cpp:60-88 | the script's callback and the module's handler, event after event, leave the calls, rows and connection of that run, whatever the database does |
| EndToEnd.RelayToWorkingDatabase | shelly/shelly_module.cpp:211-238 | through both programs, with a working database, the tables gain exactly the rows of the published advertisements |
| Polling.Work | base/module.h:162-180 | the k-th query starts at s0 + k * P + its lag, for every interval and all durations; step by step, each starts on its tick or when the one before it ends, whichever is later |
| Polling.LagClosedForm | base/module.h:164-167 | the lag is the maximum of zero and of the summed overruns of every run of queries ending just before |
| Polling.LagRecurrence | base/module.h:165-168 | the lag obeys the queue recurrence max(0, lag + duration - P) |
| Polling.NoDrift | base/module.h:130-132 | a query is on its tick exactly if no run of queries before it overran in total |
| Polling.CatchUp | base/module.h:165-168 | r queries of at most c work off r * (P - c) of the lag, and exactly that if they take c |
| Polling.RecoveryFromOneOverrun | base/module.h:165-168 | after one overrun the loop is back on its ticks after r queries iff r * (P - c) covers the overrun (for queries of length c) |
| Polling.NoTickSkipped | base/module.h:165-167 | consecutive starts follow max(own tick, end of the previous query): every tick has its query |
| Shutdown.RunInv | base/module.h:162-186 | in every interleaving the worker finishes only after an abort, and the join returns only after the worker finished |
| Shutdown.AfterAbort | base/module.h:162-186 | once the flag is set, exactly the query whose flag test had already passed still starts, and every step brings the end one closer |
| Shutdown.ShutdownIsBounded | base/module.h:183-186 | once the flag is set: at most five more steps, at most one more query, and no stop before the join has returned |
| Shutdown.NeverStopsUnasked | base/module.h:165-178 | without an abort the worker always has a next step |
| Retry.RetryWithBackoff | base/utility.cpp:10-22 | OK iff times <= 0 or one of the first `times` calls succeeds; stops at the first success; sleeps 100 * 2^i after failure i, in total 100 * (2^f - 1) |
| Retry.DelaysFit | base/utility.cpp:18 | the delay stays within a 32-bit int exactly up to 25 failures |
| Modbus.ModbusConnection.Init | base/modbus_connection.cpp:20-50 | the held context, flag, status and accounts after every outcome of allocation and of five connection attempts |
| Modbus.ModbusConnection.Reinit | base/modbus_connection.cpp:67-81 | a failed probe frees the held context once and replaces it; with a probe, OK means an open context |
| Modbus.ModbusConnection.Execute | base/modbus_connection.cpp:52-65 | with a probe address the callback runs iff the probe succeeded or the connection was just established, always on a live open context; without one, iff the connection counts as initialised, on the context held before; the status of every other outcome |
| Modbus.ModbusConnection.Destroy | base/modbus_connection.cpp:15-18 | the destructor frees the held context, once |
| Modbus.ContextsConserved | base/modbus_connection.cpp:20-81 | over every run: contexts not freed = the held one + one per Init that overwrote a held one |
| Modbus.LeakFreeRuns | base/modbus_connection.cpp:20-81 | conservation holds iff no client Init finds a context held; so with at most one Init, made first |
| Modbus.SecondInitLeaks | base/modbus_connection.cpp:25 | two client Inits leak a context |
| Modbus.OpenIsInitialized | base/modbus_connection.cpp:42-43 | in every reachable state an open context counts as initialised |
| Modbus.ProbedCallbacksSafe | base/modbus_connection.cpp:52-81 | with a probe, every callback of every run is given an open context |
| Modbus.UnprobedRun | base/modbus_connection.cpp:20-81 | without one, over every run: the flag says whether any Init established the connection, while the context is what the last Init left |
| Modbus.UnprobedSafety | base/modbus_connection.cpp:20-65 | without one, after every run: "initialised implies open" holds iff the last Init established the connection once any has |
| Modbus.UnprobedCallbacksSafe | base/modbus_connection.cpp:20-65 | without one, all callbacks of a run are given open contexts iff that condition holds at each of its Execute calls |
| Modbus.UnprobedSecondInit | base/modbus_connection.cpp:25-49 | after a second Init that fails, callbacks still run: on null if it could not allocate, else on a context without a connection |
| Modbus.Reestablishes | base/modbus_connection.cpp:52-81 | with a probe one Execute re-establishes any connection if one of five attempts succeeds |
| Modbus.Drive | base/modbus_connection.cpp:20-81 | the methods, called one after another on a real connection object, follow the state machine of these runs and give callbacks the contexts it says, never using a freed context |
| Modbus.WholeLife | base/modbus_connection.cpp:15-81 | from construction over any calls to the destructor: what stays unfreed are the overwritten contexts, and nothing if the only Init is the first call |
| Metrics.KeysInjective | base/metrics.cpp:87-90 | the cache key identifies (service, device) for all devices iff no service continues another with a bar |
| Metrics.BarFreeSeparated | base/metrics.cpp:87-90 | services without a bar satisfy that condition |
| Metrics.DeviceCountersExact | base/metrics.cpp:85-100 | every device counter shows the calls for its own labels, for all logs, iff the services satisfy that condition |
| Metrics.CollidingServices | base/metrics.cpp:87-90 | two calls whose second counter is never created |
| Metrics.QueryTally | base/metrics.cpp:75-78 | query counters show the number of calls for every service and result |
| MetricCalls.CountIsMultiplicity | base/metrics.cpp:75-100 | the calls of a log are counted with their multiplicity |
| Metrics.WastlernetMetrics.CountersShown | base/metrics.cpp:61-100 | in every valid state the exported counters show what the log says |
| Metrics.WastlernetMetrics.GetOrCreateChildren | base/metrics.cpp:61-73 | returns the registered counters of the service, keeps all others, and disturbs no count |
| Metrics.WastlernetMetrics.Complete | base/metrics.cpp:77 | the increment outside the mutex keeps every counter equal to the log extended by this call |
| Metrics.WastlernetMetrics.RecordQueryResult | base/metrics.cpp:75-78 | lookup and increment together record one call; counters are only added |
| Metrics.WastlernetMetrics.FindDeviceCounter | base/metrics.cpp:87-98 | the cached counter of the key, created with the labels that use the key first |
| Metrics.WastlernetMetrics.RecordDeviceUpdate | base/metrics.cpp:85-100 | records one update and touches no query counter |
| MetricsThreads.RunThreads | base/metrics.cpp:61-100 | for every interleaving of threads the log gains exactly the completed calls and all counters agree with it |
| MetricsThreads.RunFromStart | base/metrics.cpp:61-100 | for every interleaving from the start: query counters equal completed calls, and device counters do if the services are separated |
| MetricsThreads.CompletedArePrograms | base/metrics.cpp:61-100 | in every interleaving of any number of threads, each making its calls one after another, the completed calls are those of the threads' programs |
| MetricsThreads.RunPrograms | base/metrics.cpp:61-100 | so every exported query counter equals the number of times the programs make that call, and every device counter if the services are separated |
| Registers.Join2IsPositional | base/modbus_connection.cpp:101 | two registers joined by shift and or are their positional value, most significant first |
| Registers.Join4IsPositional | base/modbus_connection.cpp:106 | the same for four registers |
| Registers.ToInt16Exact | base/modbus_connection.cpp:84-92 | toInt16 is the unique signed 16-bit value congruent to the register |
| Registers.ToInt32Exact | base/modbus_connection.cpp:94-103 | toInt32 is the unique signed 32-bit value congruent to the positional value |
| Registers.ToInt64Exact | base/modbus_connection.cpp:105-107 | toInt64 is the unique signed 64-bit value congruent to the positional value |
| Registers.RegisterRoundTrip | base/modbus_connection.cpp:94-107 | every 32-bit and 64-bit number is read back from its registers |
| Registers.Uint2IntIsToInt16 | solvis/solvis_module.cpp:16-21 | uint2int equals toInt16 on every register |
| Registers.BitsetIsPositional | base/modbus_connection.cpp:131-133 | toBitset32 holds the positional bits although its shift may overflow to a negative int |
| Registers.IntegersExact | base/modbus_connection.cpp:84-107 | toInt16, toInt32 and toInt64 in plain numbers: the only number of the signed range with the remainder that the registers spell, most significant first |
| Registers.BitsetExact | base/modbus_connection.cpp:131-133 | toBitset32 is 65536 times the first register plus the second |
| Binary32.DecodersAgree | senec/senec_client.cpp:26-30 | hex2float of eight hex digits and toFloat of the two registers they spell denote the same binary32 value |
| Binary32.EveryWordHasText | senec/senec_client.cpp:26-30 | every 32-bit pattern is spelled by such a text |
| Binary32.AbsoluteIsScaled | base/modbus_connection.cpp:109-121 | the magnitude by the standard's two cases is one integer times 2^-149 |
| Binary32.ValueExact | base/modbus_connection.cpp:109-121 | every non-negative finite pattern in whole numbers: (2^23 + fraction) * 2^(exponent - 150), or fraction * 2^-149 if the exponent field is zero |
| Binary32.SignAndSpecial | base/modbus_connection.cpp:109-121 | bit 31 negates; the top exponent is infinity for fraction zero and no number otherwise |
| Binary32.ExponentDoubles | base/modbus_connection.cpp:109-121 | one step of the exponent doubles every normal number |
| Binary32.WholeNumbers | base/modbus_connection.cpp:109-121 | every whole number below 2^24 and its negation is the value of an explicit pattern |
| Binary32.HexWordExact | senec/senec_client.cpp:26-30 | four hex digits are read place by place |
| Binary32.HexDigitExact | senec/senec_client.cpp:26-30 | digits and letters of both cases have their values |
| Binary32.DecodeOne | senec/senec_client.cpp:26-30 | registers 3f80 0000 and the text 3F800000 are 1.0 |
| Binary32.OrderPreserved | base/modbus_connection.cpp:109-121 | over finite patterns sign-magnitude order is the order of the numbers |
| Binary32.SplitByBit31 | senec/senec_client.cpp:137-151 | the test `< 0` holds iff bit 31 is set, except for minus zero and NaN |
| Binary32.SplitBattery | senec/senec_client.cpp:137-143 | for every pattern: discharge is non-zero iff bit 31 is set, minus zero and NaN excepted, and charge iff it is clear; for finite ones charge minus discharge is the power, neither is negative, one is zero |
| Scanner.ParseNumeric | hafnertec/hafnertec_client.cpp:30-55 | the two loops and the substring read what `Scanned` says: nothing below two digits, else at most `last` characters from the first digit |
| Scanner.ScansDecimal | hafnertec/hafnertec_client.cpp:52-54 | first digit not at index 0 and two digits: the value of the longest unsigned decimal at the first digit |
| Scanner.ScansFromStart | hafnertec/hafnertec_client.cpp:52-54 | first digit at index 0: right iff the text's last digit lies behind the numeral or is an insignificant zero |
| Scanner.LosesLastDigit | hafnertec/hafnertec_client.cpp:52 | a text for which it is wrong |
| Scanner.SingleDigit | hafnertec/hafnertec_client.cpp:47-50 | a single digit is read as 0, which is right iff it is 0 |
| Scanner.ScansExactly | hafnertec/hafnertec_client.cpp:30-55 | for every text: the result is the value of the longest unsigned decimal at the first digit iff there is no digit, or a single 0, or two digits of which the first is not at index 0, or the dropped last digit makes no difference |
| Scanner.WholeExact | hafnertec/hafnertec_client.cpp:54 | the longest unsigned decimal of a text that starts with digits and no fraction is these digits, and its value the number they spell |
| Scanner.PointExact | hafnertec/hafnertec_client.cpp:54 | with a fraction it ends behind it, and its value is the number before the point plus the fraction's digits over a power of ten |
| Scanner.ShownNumber | hafnertec/hafnertec_client.cpp:54 | the numeral of every number is read back as that number |
| SelectServer.HandledOnce | hafnertec/hafnertec_modbus_debug.cpp:84-88 | each pass handles every reported descriptor exactly once, in ascending order |
| SelectServer.StaysRegistered | hafnertec/hafnertec_modbus_debug.cpp:84-141 | a reported descriptor stays registered until its turn, and the listening socket always |
| SelectServer.NoReceiveOnAccepted | hafnertec/hafnertec_modbus_debug.cpp:90-116 | a connection accepted in a pass is not received on in that pass |
| SelectServer.Server.Pass | hafnertec/hafnertec_modbus_debug.cpp:84-141 | the loop with its moving bound produces exactly the events of all reported descriptors; afterwards a descriptor is registered iff it was accepted in the pass, when the server's turn came, or was registered before and is no reported client whose receive failed; every registered descriptor stays at most fdmax |
| SelectServer.Server.Serve | hafnertec/hafnertec_modbus_debug.cpp:75-142 | over all passes until select fails: each pass handles exactly the descriptors that are registered when it starts and reported, in order, each with its own outcome, and none accepted in it; the registered set is what the events leave; every registered descriptor stays at most fdmax and the listening socket registered; from each watched set to the next the same rule holds as for one pass |
| SelectServer.AnswerIsUnique | hafnertec/hafnertec_modbus_debug.cpp:84-141 | these rules leave a pass no freedom: only one sequence of events meets them |
| Lifecycle.ShellyClient.Start | shelly/shelly_module.cpp:96-140 | running afterwards iff it was before or all three steps succeed; the state and library accounts after success and after each of the three failures |
| Lifecycle.ShellyClient.Abort | shelly/shelly_module.cpp:142-153 | stops a running client and releases it, and does nothing otherwise |
| Lifecycle.ClientsConserved | shelly/shelly_module.cpp:96-153 | over every run: client iff running, clients created minus destroyed is 1 or 0 accordingly, initialisations minus cleanups is that plus the failed creations |
| Lifecycle.AbortReleases | shelly/shelly_module.cpp:142-153 | after Abort nothing is left but the failed creations' initialisations; repeating it changes nothing |
| Lifecycle.FailedCreationsAddUp | shelly/shelly_module.cpp:96-153 | n Starts that cannot create a client leave n initialisations that Abort does not clean up |
| Fronius.Combine | fronius/fronius_module.cpp:15-53 | the sample exists iff all four readings do, else the first error; consumption + charge + feed-in = both PV outputs + discharge + draw; flows are split with one of each pair zero |
| Fronius.Query | fronius/fronius_module.cpp:15-61 | the handler is called exactly if all four readings succeed, on the balanced sample, each flow split by its sign, and its status is returned; otherwise that of the first failed reading; an exception gives an internal error |
| Fronius.MeterHasNoInfluence | fronius/fronius_module.cpp:25-34 | that balance determines the sample, so the meter's value has no influence |

## Left out

- JSON text: parsing, printing and the limits of number formats; a published object arrives as it was built.
- Floating-point rounding: the factors 0.01 and 0.1 and the sums of powers are exact; conversions of reals outside the 32-bit int range to lux are not modelled.
- Timescale.TimescaleConnection.Update: requires a connection object, because after a reconnect that could not construct one the source dereferences a null pointer; recovery from that is not claimed.
- ShellyModule.Module.HandleMqttMessage: has the same requirement for messages with data, for the same reason.
- ShellyModule.Module.Serve: covers the runs in which every message with data finds a connection object, for the same reason.
- Failure of the rollback itself, and of `Close`.
- Concurrent use of one Modbus connection, whose probe runs outside the lock, and of the shared state cache; both models are sequential.
- Spontaneous loss of a Modbus connection is seen only at the next probe, as in the source; register values read by callbacks are not modelled.
- Shutdown.AfterAbort: takes the flag, a plain bool in the source, to be atomic; Abort is called once and queries end.
- Polling.Work: sleeps are exact, and the clock jumps at most while a query runs.
- Latency histograms, build info and the HTTP exposer of the metrics object.
- Retry.RetryWithBackoff: the delay is an unbounded number; `DelaysFit` says when it fits the source's int.
- Scanner.ScansExactly: leaves out texts with hexadecimal or exponent forms at the first digit, for which the value of atof is an arbitrary parameter; the sign in front of a number is ignored, as in the source.
- Binary32.DecodersAgree: only eight-digit texts, because the source assumes checked input; left out are the other Senec value tags, whose signed variants ignore the sign.
- SelectServer.Server.Pass: leaves out descriptors beyond FD_SETSIZE, the Modbus replies and the interrupt handler.
- toString and toBitset16, Solvis' field-by-field copying, weather, Hue, HTTP connections, SQL text other than which column gets which parameter, and main: these parts copy or convert single values and put the others together.
- MQTT address parsing, connection callbacks and their metrics.
