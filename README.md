# Interlock sensor read path, modelled in Dafny

This project models how the interlock (HLR) controller's RS-485/Modbus driver
reads its values, and proves what the driver promises about that. There are
three parts:

- **The bus manager** (`RS485BusManager`). It keeps one lock and one
  last-access timestamp per serial port, and each port's entry is created when
  the port is first used. A scoped access takes the port's lock and waits out
  the pre-delay since the last access. On exit it stamps the port with the
  exit time and frees the lock.
- **The sensor's poll** (`InterlockSensor.read_values`). It makes up to
  `max_retries` (3) attempts. Each attempt runs inside one scoped bus access
  and issues seven single-register reads in a fixed order. A read that fails
  ends its attempt, and a retry sleep of `retry_delay` (0.5 s) follows. The
  first clean attempt returns the decoded payload. When the instrument never
  opened, or when every attempt fails, the poll returns the all-None payload.
- **The register map and the decoding** (`_get_address` and the per-field
  scaling). The registers are offsets 0, 2, 3, 4, 5, 6 and 8, read with
  function code 3 as signed values. Four fields are scaled by 0.1 and rounded
  to two decimals, the fan speed is scaled by 1.0, and CO2 and the operation
  mode are cast to integers.

Modules, in dependency order:

| file | module | contents |
|---|---|---|
| `wrappers.dfy` | `Wrappers` | `Option` |
| `registers.dfy` | `Registers` | the address table, the read order, the requests |
| `decoding.dfy` | `Decoding` | Python's `round(x, 2)` and `int(x)` on exact reals, the two payload shapes |
| `bus_access.dfy` | `BusAccess` | the registry as a value (`Registry`) and as an object (`RS485BusManager`) |
| `interlock_sensor.dfy` | `InterlockSensor` | the sensor, the transport and clock oracles, the trace, the poll as methods and as the function `ReadOutcome` |
| `read_properties.dfy` | `ReadProperties` | what a whole poll does, proved about `ReadOutcome` |

Some design choices:

- **Separate clock and transport.** The methods follow the driver's code
  step by step, and each is proved against a pure function.
  - `ReadValues`, `RetryLoop` and `RetryStep` are proved equal to the pure
    function `ReadOutcome`/`AttemptsFrom`. That function gives the reading,
    the trace of events and the registry afterwards.
  - `ScopedAttempt`, `ReadAttempt` and `ReadRegister` are proved equal to the
    pieces that function is built from: `ReadsFrom`, `ReadEvents`,
    `ScopeEvents` and `Registry.Transact`.
  - The transport is an oracle. It answers read `k` of attempt `n` with a
    value or with `None`, where `None` stands for the exception that
    `read_register` raises.
  - The clock is an oracle of the readings taken on entering and on leaving
    each attempt's bus scope.
  - Sleeps and reads are events in the trace.
- **Properties stated on the pure functions.** The properties are lemmas about
  that function, in `read_properties.dfy`. The trace is measured four ways:
  the attempt numbers entered, the sleeps, the entry waits, and the requests
  of each attempt. There is one lemma per measure, and each is proved by
  induction over the retry count.

## Model

| member | source | states |
|---|---|---|
| BusAccess.Registry.Ensure | interlock_sensor.py:25-30 | Create-if-absent. A new port gets a lock no other port has and timestamp 0.0. A known port leaves the registry unchanged, so its lock and timestamp are kept. No other port's entry changes. |
| BusAccess.EnsureKeepsDistinct | interlock_sensor.py:25-30 | Lazy creation never makes two ports share a lock. |
| BusAccess.RS485BusManager.EnsurePort | interlock_sensor.py:25-30 | The object's tables become `Ensure(port)` of the old ones. It returns that port's lock, which is the old lock when the port was already known. |
| BusAccess.RS485BusManager.constructor | interlock_sensor.py:20-21 | The tables start empty. |
| BusAccess.RS485BusManager.Access | interlock_sensor.py:33-34 | Access registers the port (as in `_ensure_port`) and returns a scope object holding that port, its pre-delay (default 0.03) and its lock. |
| BusAccess.Registry.Acquire | interlock_sensor.py:38 | Taking the lock marks only that port held. |
| BusAccess.WaitTime | interlock_sensor.py:39-43 | The entry wait is never negative. Entry plus wait is at least `last + pre_delay`. The wait is either zero or exactly `pre_delay - (now - last)`. |
| BusAccess.Registry.WaitFor | interlock_sensor.py:40-41 | The wait a transaction sees is measured from the port's timestamp, 0.0 for a port never seen. |
| BusAccess.RS485BusManager.Enter | interlock_sensor.py:37-44 | Entry takes the lock. The wait returned is `WaitTime` against the port's stamp, so the transaction starts no earlier than `last + pre_delay` and no earlier than `now`. |
| BusAccess.Registry.Release | interlock_sensor.py:46-49 | Exit stamps exactly this port with the exit reading and frees its lock. Every other port keeps its timestamp. |
| BusAccess.RS485BusManager.Exit | interlock_sensor.py:46-49 | The tables become `Release(port, at)` of the old ones, and the result is false, so a failure raised inside the scope is not swallowed. |
| BusAccess.Registry.Transact | interlock_sensor.py:25-49 | After one whole scoped access, the port is stamped with the exit reading and is not held. Every other port keeps its timestamp. |
| BusAccess.ScopeIsTransact | interlock_sensor.py:25-49 | Create-if-absent, then enter, then exit, composes to `Transact`. |
| BusAccess.TransactLast | interlock_sensor.py:47 | A transaction changes only its own port's timestamp. |
| BusAccess.StepLast | interlock_sensor.py:47 | The same, for transaction `j` of a sequence. |
| BusAccess.OtherPortsKeepLast | interlock_sensor.py:47 | Transactions on other ports leave a port's timestamp unchanged. |
| BusAccess.MinimumSpacing | interlock_sensor.py:37-49 | Of two consecutive transactions on the same port, the later one starts at least `pre_delay` after the earlier one's exit, whatever happened on other ports in between. |
| Registers.GetAddress | interlock_sensor.py:223-234 | The address table has eight entries: seven register offsets and the function code. |
| Registers.AddressEntries | interlock_sensor.py:225-233 | The table holds a key for each of the seven registers in read order, with offsets 0, 2, 3, 4, 5, 6 and 8, and function code 3. |
| Registers.ReadPlan | interlock_sensor.py:139-182 | Read `k` of an attempt is `Request(slave, PlanOffsets[k], 3, signed)`. The offsets strictly increase, so they are distinct. |
| Registers.RequestAt | interlock_sensor.py:139-142 | With the driver's own table, read `k` is a signed read of offset `PlanOffsets[k]` with function code 3, addressed to the sensor's slave. |
| Decoding.RoundHalfEven | interlock_sensor.py:191 | The result is the nearest integer, and the even one on a tie (the rounding rule of Python's `round`). |
| Decoding.Round2 | interlock_sensor.py:191-196 | `round(x, 2)` is within 0.005 of `x` and is a whole number of hundredths. On a tie it is the even number of hundredths, as Python rounds. |
| Decoding.Round2Exact | interlock_sensor.py:191-196 | A value with at most two decimals is unchanged by rounding. |
| Decoding.Trunc | interlock_sensor.py:195 | `int(x)` truncates toward zero, for positive and negative `x`. |
| Decoding.Tenths | interlock_sensor.py:143 | A 0.1-scaled field rounded to two places is exactly `raw / 10`. |
| Decoding.Units | interlock_sensor.py:146-149 | The fan speed, rounded to two places, is exactly `raw`. |
| Decoding.Whole | interlock_sensor.py:166-169 | An integer-cast field is exactly `raw`. |
| Decoding.DecodeFields | interlock_sensor.py:143-198 | The decoded payload has exactly the seven success keys, each present. The fields `temp_before_filter`, `temperature`, `humid` and `voc` are `raw / 10`, `fan_speed` is `raw`, and `co2` and `operation_mode` are `int(raw)`. |
| Decoding.NullPayloadShape | interlock_sensor.py:119-127 | The all-None payload has the seven null keys, every one mapped to `None`. |
| Decoding.PayloadKeysDiffer | interlock_sensor.py:120 | The two payloads differ in exactly one key. The all-None payload has `temperature_before_filter` where the decoded one has `temp_before_filter`, so `temp_before_filter` is missing from a failed reading. |
| Decoding.ScalingExamples | interlock_sensor.py:143-176 | 123 scaled by 0.1 is 12.3, and -50 cast or scaled by 1.0 stays -50. |
| Decoding.DecodeExample | interlock_sensor.py:190-198 | Raw values 300, 50, 250, 450, 800, 120 and 2 decode to 30.0, 50.0, 25.0, 45.0, 800, 12.0 and 2. |
| InterlockSensor.NewSensor | interlock_sensor.py:55-87 | Construction sets three retries, a 0.5 s retry delay, type "interlock", the given name and pre-delay, and the driver's address table. The instrument is present exactly when the port could be opened, and then it is on the given port and slave address. |
| InterlockSensor.ReadsFrom | interlock_sensor.py:136-182 | An attempt's reads run until the first failing read, which ends the attempt. If every read answers, the attempt yields the seven answers in read order. |
| InterlockSensor.CleanReads | interlock_sensor.py:136-182 | An attempt reads all seven values exactly when every read answers. |
| InterlockSensor.ReadsOutcomeUnique | interlock_sensor.py:136-182 | The transport's answers determine how an attempt ends. |
| InterlockSensor.Issued | interlock_sensor.py:136-182 | An attempt issues between one and seven reads. |
| InterlockSensor.ReadEvents | interlock_sensor.py:139-182 | The first `m` reads of an attempt are `m` events. |
| InterlockSensor.ReadRegister | interlock_sensor.py:139-142 | One `read_register` call issues its request, which is logged, and returns the transport's answer. |
| InterlockSensor.ReadAttempt | interlock_sensor.py:136-182 | The seven reads in source order, as straight-line code. The outcome matches the transport, and the reads logged are exactly those issued, in order, up to and including a failing read. |
| InterlockSensor.NullReading | interlock_sensor.py:109-130 | The failure reading carries the sensor's name as id and its type. Its payload has exactly the seven null keys, every one mapped to `None`. |
| InterlockSensor.ScopeEvents | interlock_sensor.py:136-182 | One attempt's scope is entry, then the reads issued, then exit. |
| InterlockSensor.AttemptsFrom | interlock_sensor.py:132-221 | The definition of the retry loop after `retries` failed attempts. A clean attempt ends the poll with the decoded reading, and a failed one is followed by a sleep and the next attempt. Its own contract says that on every path the reading carries the sensor's name and type and the registry stays well formed. What it promises about attempts, sleeps, waits, reads, reading and registry is proved in `PollSummary` and the lemmas it combines. |
| InterlockSensor.ReadOutcome | interlock_sensor.py:89-221 | The definition of one whole `read_values`. With no instrument the outcome is the all-None reading with no traffic, and otherwise it is `AttemptsFrom` at retry 0. On every path the reading carries the sensor's name and type (lines 109-113), and the registry stays well formed. Its promises are proved in `NoInstrumentPoll`, `PollSummary` and the lemmas `PollSummary` combines. |
| InterlockSensor.ScopedAttempt | interlock_sensor.py:136-182 | One attempt inside its scoped access. The bus object ends as `Transact` of its old state, on success and on failure alike. The events are entry with the wait, the reads, then exit. |
| InterlockSensor.CleanStep | interlock_sensor.py:190-201 | A clean attempt ends the poll with the decoded reading. |
| InterlockSensor.FailedStep | interlock_sensor.py:203-205 | A failed attempt is followed by one retry sleep, and the poll goes on from the registry that attempt left. |
| InterlockSensor.RetryStep | interlock_sensor.py:133-205 | One pass of the loop: a clean attempt finishes the poll, and a failed one leaves the rest of the poll to run from the new bus state. |
| InterlockSensor.RetryLoop | interlock_sensor.py:132-221 | The loop's reading, events and final bus state are those of `AttemptsFrom` at retry 0. |
| InterlockSensor.ReadValues | interlock_sensor.py:89-221 | The whole `read_values`. Its reading, events and final bus state are `ReadOutcome` of the bus state before it. |
| ReadProperties.FirstClean | interlock_sensor.py:132-201 | The first clean attempt is 0 or lies within the remaining attempts, and it is clean. |
| ReadProperties.FirstCleanIsFirst | interlock_sensor.py:132-201 | No clean attempt comes before `FirstClean`. |
| ReadProperties.NoCleanAttempt | interlock_sensor.py:207-221 | When no attempt is clean, every remaining attempt is made and every one of them fails. |
| ReadProperties.FailedAttempt | interlock_sensor.py:203-205 | A failed attempt's trace is its scope, then one sleep, then the rest of the poll. It changes neither the reading nor the first clean attempt. |
| ReadProperties.CleanAttempt | interlock_sensor.py:190-201 | A clean attempt's trace is only its scope, and its reading decodes the attempt's values. |
| ReadProperties.AttemptNumbers | interlock_sensor.py:132-135 | Attempts are numbered 1, 2, ... in order. They run up to the first clean one, or up to `max_retries` when none is clean. |
| ReadProperties.RetrySleeps | interlock_sensor.py:203-205 | Each failed attempt is followed by exactly one `retry_delay` sleep, the last one included. A clean attempt is followed by none. |
| ReadProperties.AttemptReads | interlock_sensor.py:136-182 | Each attempt made issues the plan's first `Issued` reads in order. No read is issued for an attempt that is not made. |
| ReadProperties.EntryWaitsSpacing | interlock_sensor.py:39-43 | Each wait keeps the pre-delay after the stamp it is measured from. |
| ReadProperties.AttemptWaits | interlock_sensor.py:37-47 | The first attempt's wait is measured from the port's stamp before the poll. Each later attempt's wait is measured from the previous attempt's exit reading. |
| ReadProperties.PollData | interlock_sensor.py:190-221 | The reading is decoded from the first clean attempt's values, or is all-None when no attempt is clean. |
| ReadProperties.ScopePorts | interlock_sensor.py:136 | One attempt's bus scope enters and leaves the instrument's own port. |
| ReadProperties.AttemptPorts | interlock_sensor.py:132-136 | Every entry and exit event of a poll names the instrument's port. |
| ReadProperties.PollRegistry | interlock_sensor.py:46-49 | After a poll the sensor's port is stamped with the last attempt's exit reading and is not held. Other ports keep their timestamps. |
| ReadProperties.NoInstrumentPoll | interlock_sensor.py:117-130 | With no instrument, the poll makes no bus access and no sleep, leaves the registry unchanged, and returns the all-None reading. |
| ReadProperties.PollSummary | interlock_sensor.py:89-221 | A whole poll: its attempt numbers, sleeps, waits, reads, reading and registry, and every bus scope on the instrument's port. |
| ReadProperties.Exhaustion | interlock_sensor.py:207-221 | When every attempt fails, all `max_retries` attempts are made, each is followed by a sleep, and the reading is all-None. |
| ReadProperties.CleanFirstAttempt | interlock_sensor.py:190-201 | A clean first attempt is the only attempt. There is no sleep, and the reading decodes its values. |
| ReadProperties.PayloadAllOrNothing | interlock_sensor.py:190-221 | The payload either has all seven success keys, each with a value, or all seven null keys, each `None`. |
| ReadProperties.PollSpacing | interlock_sensor.py:37-44 | Within a poll, every attempt starts at least `pre_delay` after the previous exit. The first starts at least `pre_delay` after the port's earlier stamp. |
| ReadProperties.ConstructionFailurePermanent | interlock_sensor.py:85-87 | A sensor whose instrument failed to open returns the all-None reading under its name on every poll, with no bus traffic. |
| ReadProperties.ConstructedExhaustion | interlock_sensor.py:68-69 | A constructed sensor whose attempts all fail makes attempts 1, 2 and 3 and sleeps 0.5 s after each. |
| ReadProperties.DriverPlan | interlock_sensor.py:225-233 | The plan of the driver's table, request by request. |
| ReadProperties.ConstructedReads | interlock_sensor.py:136-182 | Each attempt of a constructed sensor reads offsets 0, 2, 3, 4, 5, 6 and 8 of its own slave with function code 3, signed, and stops after a failing read. |

## Left out

- Threads:
  - the mutual exclusion of the per-port `threading.Lock`;
  - blocking in `lock.acquire()`;
  - the `_global_lock` around lazy creation.

  The registry is sequential. A lock is held or free, and a scoped access
  requires its port not to be held. In a single thread, acquiring a held
  lock would deadlock.
- `time.time()` and `time.sleep()`: clock readings are parameters (`Clock`), and sleeps are trace events. The model never waits.
- The class-level tables: they are one `RS485BusManager` object passed to the poll, and not process-wide globals.
- `minimalmodbus` and `pyserial`:
  - Instrument configuration and opening are reduced to a boolean outcome.
  - Byte size, parity, stop bits, mode, buffer clearing and port closing are not modelled. The baud rate and timeout are only stored.
  - `read_register` framing and CRC are not modelled. A read is an oracle answer, and any exception it raises is `None`.
- IEEE floats: `raw * 0.1` and `round(..., 2)` are computed on exact reals, so `Tenths` is exactly `raw / 10`.
- Logging, which has no effect on the results.
- `main.py` and `test.py`: database persistence, queue draining, the mock poller and sample dictionaries are not part of this model.
- `RetryLoop` leaves the loop through a done flag instead of `return` inside the `try`. The attempts, events and results are the same.
- Sensor id: the reading's `sensor_id` is the sensor's name, as the code sets it at line 110. The docstring says it is an int.
- Payload key mismatch: the key mismatch between the two payloads is modelled as written and stated by `PayloadKeysDiffer`. It is not corrected.
- Decoding.Decode: its contract lives in the lemma `DecodeFields`, not in its own `ensures`.
- Decoding.NullPayload: its contract lives in the lemma `NullPayloadShape`, not in its own `ensures`.
