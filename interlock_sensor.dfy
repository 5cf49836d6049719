/**
 * The interlock sensor driver's read path: up to `maxRetries` attempts, each
 * a scoped bus access holding seven single-register reads, decoded into a
 * payload on the first clean attempt and degraded to the all-None payload
 * when the instrument never opened or every attempt failed.
 *
 * The transport is an oracle that answers read `k` of attempt `n` with a
 * value or a failure; the clock is an oracle of the readings taken on entry
 * to and exit from each attempt's bus scope; sleeps are trace events.
 */
module InterlockSensor {
  import opened Wrappers
  import opened Registers
  import opened Decoding
  import opened BusAccess

  /** The serial instrument construction opened: its port, slave address and line settings. */
  datatype Instrument = Instrument(port: string, slaveAddress: int, baudrate: int, timeout: real)

  /**
   * A driver instance. `instrument` is `None` when opening the instrument
   * failed at construction; that outcome is permanent for the instance.
   */
  datatype Sensor = Sensor(
    sensorId: int,
    sensorAddress: int,
    sensorType: string,
    name: string,
    preDelay: real,
    maxRetries: nat,
    retryDelay: real,
    modbusAddress: map<string, int>,
    instrument: Option<Instrument>)

  /**
   * Construction: `portOpened` is whether the instrument could be opened on the
   * port. Three attempts, half a second apart; the type tag is "interlock".
   */
  function NewSensor(
    sensorAddress: int,
    portOpened: bool,
    port: string := "/dev/ttyUSB0",
    baudrate: int := 19200,
    timeout: real := 1.5,
    preDelay: real := 0.03,
    name: string := "interlock"): (s: Sensor)
    ensures s.maxRetries == 3 && s.retryDelay == 0.5 && s.sensorType == "interlock"
    ensures s.name == name && s.sensorId == sensorAddress && s.preDelay == preDelay
    ensures s.modbusAddress == GetAddress() && HasPlanKeys(s.modbusAddress)
    ensures s.instrument.Some? <==> portOpened
    ensures portOpened ==> s.instrument.value.port == port && s.instrument.value.slaveAddress == sensorAddress
  {
    var instrument := if portOpened then Some(Instrument(port, sensorAddress, baudrate, timeout)) else None;
    ReadPlan(sensorAddress);
    Sensor(sensorAddress, sensorAddress, "interlock", name, preDelay, 3, 0.5, GetAddress(), instrument)
  }

  /** What a poll returns: the sensor's display name as id, its type tag, and the payload. */
  datatype Reading = Reading(sensorId: string, sensorType: string, payload: Payload)

  /** The reply to read `k` (0 to 6) of attempt `n` (1 to `maxRetries`): a value, or `None` when it raised. */
  type Transport = (nat, nat) -> Option<Int16>

  /** The clock readings taken on entering and on leaving the bus scope of attempt `n`. */
  datatype Clock = Clock(enterAt: nat -> real, exitAt: nat -> real)

  /** What the driver does, in order. */
  datatype Event =
    | Acquire(attempt: nat, port: string, wait: real)  // bus scope entered, after a pre-delay wait
    | Read(attempt: nat, request: Request)            // one read issued (it may then fail)
    | Release(attempt: nat, port: string, at: real)   // bus scope left, port stamped with `at`
    | Sleep(seconds: real)                            // retry delay after a failed attempt

  /** How the reads of one attempt end: all seven values, or the index of the read that failed. */
  datatype ReadsOutcome = AllRead(raws: seq<Int16>) | FailedAt(index: nat)

  /**
   * The reads of attempt `n` from read `k` on: they go on while reads
   * succeed, and the first failure ends them.
   */
  function ReadsFrom(transport: Transport, n: nat, k: nat): (o: ReadsOutcome)
    requires k <= RegisterCount
    ensures o.AllRead? ==>
      && |o.raws| == RegisterCount - k
      && forall i :: k <= i < RegisterCount ==> transport(n, i) == Some(o.raws[i - k])
    ensures o.FailedAt? ==>
      && k <= o.index < RegisterCount
      && transport(n, o.index) == None
      && forall i :: k <= i < o.index ==> transport(n, i).Some?
    decreases RegisterCount - k
  {
    if k == RegisterCount then AllRead([])
    else match transport(n, k)
      case None => FailedAt(k)
      case Some(v) =>
        match ReadsFrom(transport, n, k + 1)
        case AllRead(rest) => AllRead([v] + rest)
        case FailedAt(j) => FailedAt(j)
  }

  /** Whether attempt `n` reads all seven registers without a failure: every read answers. */
  predicate Clean(transport: Transport, n: nat) {
    forall k :: 0 <= k < RegisterCount ==> transport(n, k).Some?
  }

  /** An attempt's reads all come back exactly when every read answers. */
  lemma CleanReads(transport: Transport, n: nat)
    ensures Clean(transport, n) <==> ReadsFrom(transport, n, 0).AllRead?
  {
  }

  /** How many reads an attempt issues: all seven, or up to and including the one that failed. */
  function Issued(o: ReadsOutcome): (m: nat)
    requires o.FailedAt? ==> o.index < RegisterCount
    ensures 0 < m <= RegisterCount
  {
    if o.AllRead? then RegisterCount else o.index + 1
  }

  /** The read events of attempt `n`: the first `m` reads of the plan in `table` against `slave`. */
  function ReadEvents(table: map<string, int>, slave: int, n: nat, m: nat): (es: seq<Event>)
    requires HasPlanKeys(table) && m <= RegisterCount
    ensures |es| == m
  {
    seq(m, k requires 0 <= k < m => Read(n, RequestAt(table, slave, k)))
  }

  /**
   * `o` is how attempt `n` ends given the transport's answers: either every
   * read answered and `o` holds the seven values in order, or `o` names a
   * read that failed after all earlier reads answered.
   */
  predicate Matches(transport: Transport, n: nat, o: ReadsOutcome) {
    && (o.AllRead? ==>
      && |o.raws| == RegisterCount
      && forall i :: 0 <= i < RegisterCount ==> transport(n, i) == Some(o.raws[i]))
    && (o.FailedAt? ==>
      && o.index < RegisterCount
      && transport(n, o.index) == None
      && forall i :: 0 <= i < o.index ==> transport(n, i).Some?)
  }

  /** A read that fails after every earlier read of the attempt answered ends the attempt there. */
  lemma FailureMatches(transport: Transport, n: nat, k: nat)
    requires k < RegisterCount && transport(n, k) == None
    requires forall i :: 0 <= i < k ==> transport(n, i).Some?
    ensures Matches(transport, n, FailedAt(k))
  {
  }

  /** Seven answered reads give the attempt's raw values in read order. */
  lemma SuccessMatches(transport: Transport, n: nat, raws: seq<Int16>)
    requires |raws| == RegisterCount
    requires forall i :: 0 <= i < RegisterCount ==> transport(n, i) == Some(raws[i])
    ensures Matches(transport, n, AllRead(raws))
  {
  }

  /** Two reads outcomes that both match the transport's answers for attempt `n` are the same. */
  lemma ReadsOutcomeUnique(transport: Transport, n: nat, o: ReadsOutcome)
    requires Matches(transport, n, o)
    ensures o == ReadsFrom(transport, n, 0)
  {
    var p := ReadsFrom(transport, n, 0);
    if o.AllRead? && p.AllRead? {
      assert o.raws == p.raws;
    }
  }

  /** Issuing one more read of the plan appends its event to the log. */
  lemma ReadEventsStep(table: map<string, int>, slave: int, n: nat, m: nat)
    requires HasPlanKeys(table) && m < RegisterCount
    ensures ReadEvents(table, slave, n, m + 1) == ReadEvents(table, slave, n, m) + [Read(n, RequestAt(table, slave, m))]
  {
  }

  /**
   * One `read_register` call: read `k` of the plan is issued (and logged),
   * and the transport answers it with a value or a failure.
   */
  method ReadRegister(table: map<string, int>, slave: int, transport: Transport, n: nat, k: nat, log: seq<Event>)
    returns (reply: Option<Int16>, log': seq<Event>)
    requires HasPlanKeys(table) && k < RegisterCount
    requires log == ReadEvents(table, slave, n, k)
    ensures reply == transport(n, k)
    ensures log' == ReadEvents(table, slave, n, k + 1)
  {
    ReadEventsStep(table, slave, n, k);
    log' := log + [Read(n, RequestAt(table, slave, k))];
    reply := transport(n, k);
  }

  /**
   * The seven reads of attempt `n`, in the fixed order, each against slave
   * `slave` with function code 3 and signed decoding. A failing read ends
   * the attempt: no later read is issued.
   */
  method ReadAttempt(table: map<string, int>, slave: int, transport: Transport, n: nat)
    returns (o: ReadsOutcome, events: seq<Event>)
    requires HasPlanKeys(table)
    ensures Matches(transport, n, o)
    ensures events == ReadEvents(table, slave, n, Issued(o))
  {
    events := ReadEvents(table, slave, n, 0);
    var tempBeforeFilter;
    tempBeforeFilter, events := ReadRegister(table, slave, transport, n, 0, events);
    if tempBeforeFilter.None? {
      o := FailedAt(0);
      FailureMatches(transport, n, 0);
      return;
    }
    assert forall i :: 0 <= i < 1 ==> transport(n, i).Some?;
    var fanSpeed;
    fanSpeed, events := ReadRegister(table, slave, transport, n, 1, events);
    if fanSpeed.None? {
      o := FailedAt(1);
      FailureMatches(transport, n, 1);
      return;
    }
    assert forall i :: 0 <= i < 2 ==> transport(n, i).Some?;
    var ductTemp;
    ductTemp, events := ReadRegister(table, slave, transport, n, 2, events);
    if ductTemp.None? {
      o := FailedAt(2);
      FailureMatches(transport, n, 2);
      return;
    }
    assert forall i :: 0 <= i < 3 ==> transport(n, i).Some?;
    var ductHumid;
    ductHumid, events := ReadRegister(table, slave, transport, n, 3, events);
    if ductHumid.None? {
      o := FailedAt(3);
      FailureMatches(transport, n, 3);
      return;
    }
    assert forall i :: 0 <= i < 4 ==> transport(n, i).Some?;
    var ductCo2;
    ductCo2, events := ReadRegister(table, slave, transport, n, 4, events);
    if ductCo2.None? {
      o := FailedAt(4);
      FailureMatches(transport, n, 4);
      return;
    }
    assert forall i :: 0 <= i < 5 ==> transport(n, i).Some?;
    var ductVoc;
    ductVoc, events := ReadRegister(table, slave, transport, n, 5, events);
    if ductVoc.None? {
      o := FailedAt(5);
      FailureMatches(transport, n, 5);
      return;
    }
    assert forall i :: 0 <= i < 6 ==> transport(n, i).Some?;
    var operationMode;
    operationMode, events := ReadRegister(table, slave, transport, n, 6, events);
    if operationMode.None? {
      o := FailedAt(6);
      FailureMatches(transport, n, 6);
      return;
    }
    var raws := [tempBeforeFilter.value, fanSpeed.value, ductTemp.value, ductHumid.value,
                 ductCo2.value, ductVoc.value, operationMode.value];
    SuccessMatches(transport, n, raws);
    o := AllRead(raws);
  }

  /** The result of a poll: the reading, the events, and the bus registry afterwards. */
  datatype Outcome = Outcome(data: Reading, trace: seq<Event>, registry: Registry)

  /**
   * The reading that carries the all-None payload: the sensor's name as id,
   * its type, and the seven null keys, every one mapped to `None`.
   */
  function NullReading(s: Sensor): (r: Reading)
    ensures r.sensorId == s.name && r.sensorType == s.sensorType
    ensures r.payload.Keys == NullKeys && forall k :: k in r.payload ==> r.payload[k] == None
  {
    NullPayloadShape();
    Reading(s.name, s.sensorType, NullPayload())
  }

  /** The bus transaction of attempt `n`: the instrument's port, the pre-delay and that attempt's clock readings. */
  function AttemptTransaction(s: Sensor, clock: Clock, n: nat): Transaction
    requires s.instrument.Some?
  {
    Transaction(s.instrument.value.port, s.preDelay, clock.enterAt(n), clock.exitAt(n))
  }

  /**
   * The events of one attempt's bus scope: entry after `wait`, the reads
   * issued, and the exit stamped with the attempt's exit reading.
   */
  function ScopeEvents(s: Sensor, tx: Transaction, n: nat, wait: real, got: ReadsOutcome): (es: seq<Event>)
    requires s.instrument.Some? && HasPlanKeys(s.modbusAddress)
    requires got.FailedAt? ==> got.index < RegisterCount
    ensures |es| == Issued(got) + 2
  {
    [Acquire(n, tx.port, wait)]
    + ReadEvents(s.modbusAddress, s.instrument.value.slaveAddress, n, Issued(got))
    + [Release(n, tx.port, tx.exitAt)]
  }

  /** The outcome `rest`, with the events `done` logged before it. */
  function Continued(done: seq<Event>, rest: Outcome): Outcome {
    Outcome(rest.data, done + rest.trace, rest.registry)
  }

  /** Logging `first` and then `second` before an outcome is logging their concatenation. */
  lemma ContinuedTwice(first: seq<Event>, second: seq<Event>, rest: Outcome)
    ensures Continued(first, Continued(second, rest)) == Continued(first + second, rest)
  {
    assert first + (second + rest.trace) == first + second + rest.trace;
  }

  /**
   * The attempts after the first `retries` have failed, starting from bus
   * registry `reg`: a clean attempt ends the poll with the decoded payload,
   * a failed one is followed by the retry sleep and the next attempt, and
   * after the last failed attempt the payload is the all-None one. Whatever
   * the outcome, the reading is under the sensor's name and type, and the
   * registry stays well formed.
   */
  function AttemptsFrom(s: Sensor, transport: Transport, clock: Clock, reg: Registry, retries: nat): (o: Outcome)
    requires s.instrument.Some? && HasPlanKeys(s.modbusAddress) && reg.Valid() && retries <= s.maxRetries
    ensures o.data.sensorId == s.name && o.data.sensorType == s.sensorType
    ensures o.registry.Valid()
    decreases s.maxRetries - retries
  {
    if retries == s.maxRetries then Outcome(NullReading(s), [], reg)
    else
      var n := retries + 1;
      var tx := AttemptTransaction(s, clock, n);
      var got := ReadsFrom(transport, n, 0);
      var scope := ScopeEvents(s, tx, n, reg.WaitFor(tx), got);
      if got.AllRead? then
        Outcome(Reading(s.name, s.sensorType, Decode(got.raws)), scope, reg.Transact(tx))
      else
        Continued(scope + [Sleep(s.retryDelay)], AttemptsFrom(s, transport, clock, reg.Transact(tx), n))
  }

  /**
   * What one poll of sensor `s` yields, given the transport, the clock and
   * the bus registry before it. On every path the reading is under the
   * sensor's name and type, and the registry stays well formed.
   */
  function ReadOutcome(s: Sensor, transport: Transport, clock: Clock, reg: Registry): (o: Outcome)
    requires HasPlanKeys(s.modbusAddress) && reg.Valid()
    ensures o.data.sensorId == s.name && o.data.sensorType == s.sensorType
    ensures o.registry.Valid()
  {
    if s.instrument.None? then Outcome(NullReading(s), [], reg)
    else AttemptsFrom(s, transport, clock, reg, 0)
  }

  /**
   * Attempt `n` inside one scoped bus access: enter (waiting out the
   * pre-delay), the reads, exit. The exit runs whether the reads succeeded
   * or not, and it does not suppress a failure.
   */
  method ScopedAttempt(s: Sensor, bus: RS485BusManager, transport: Transport, clock: Clock, n: nat)
    returns (got: ReadsOutcome, scope: seq<Event>)
    requires s.instrument.Some? && HasPlanKeys(s.modbusAddress)
    requires bus.Valid() && s.instrument.value.port !in bus.held
    modifies bus
    ensures bus.Valid() && s.instrument.value.port !in bus.held
    ensures got == ReadsFrom(transport, n, 0)
    ensures bus.State() == old(bus.State()).Transact(AttemptTransaction(s, clock, n))
    ensures scope == ScopeEvents(s, AttemptTransaction(s, clock, n), n, old(bus.State()).WaitFor(AttemptTransaction(s, clock, n)), got)
  {
    var instrument := s.instrument.value;
    var ctx := bus.Access(instrument.port, s.preDelay);
    var wait := bus.Enter(ctx, clock.enterAt(n));
    var readEvents;
    got, readEvents := ReadAttempt(s.modbusAddress, instrument.slaveAddress, transport, n);
    ReadsOutcomeUnique(transport, n, got);
    var exitAt := clock.exitAt(n);
    var suppressed := bus.Exit(ctx, exitAt);
    ScopeIsTransact(old(bus.State()), AttemptTransaction(s, clock, n));
    scope := [Acquire(n, instrument.port, wait)] + readEvents + [Release(n, instrument.port, exitAt)];
  }

  /** A clean attempt `retries + 1` ends the poll with the decoded payload. */
  lemma CleanStep(s: Sensor, transport: Transport, clock: Clock, reg: Registry, retries: nat, done: seq<Event>)
    requires s.instrument.Some? && HasPlanKeys(s.modbusAddress) && reg.Valid() && retries < s.maxRetries
    requires ReadsFrom(transport, retries + 1, 0).AllRead?
    ensures
      var tx := AttemptTransaction(s, clock, retries + 1);
      var got := ReadsFrom(transport, retries + 1, 0);
      Continued(done, AttemptsFrom(s, transport, clock, reg, retries))
        == Outcome(Reading(s.name, s.sensorType, Decode(got.raws)),
                   done + ScopeEvents(s, tx, retries + 1, reg.WaitFor(tx), got), reg.Transact(tx))
  {
  }

  /** A failed attempt `retries + 1` is logged, followed by a retry sleep, and the poll goes on. */
  lemma FailedStep(s: Sensor, transport: Transport, clock: Clock, reg: Registry, retries: nat, done: seq<Event>)
    requires s.instrument.Some? && HasPlanKeys(s.modbusAddress) && reg.Valid() && retries < s.maxRetries
    requires ReadsFrom(transport, retries + 1, 0).FailedAt?
    ensures
      var tx := AttemptTransaction(s, clock, retries + 1);
      var got := ReadsFrom(transport, retries + 1, 0);
      Continued(done, AttemptsFrom(s, transport, clock, reg, retries))
        == Continued(done + (ScopeEvents(s, tx, retries + 1, reg.WaitFor(tx), got) + [Sleep(s.retryDelay)]),
                     AttemptsFrom(s, transport, clock, reg.Transact(tx), retries + 1))
  {
    var tx := AttemptTransaction(s, clock, retries + 1);
    var got := ReadsFrom(transport, retries + 1, 0);
    ContinuedTwice(done, ScopeEvents(s, tx, retries + 1, reg.WaitFor(tx), got) + [Sleep(s.retryDelay)],
                   AttemptsFrom(s, transport, clock, reg.Transact(tx), retries + 1));
  }

  /**
   * One pass of the retry loop after `retries` failed attempts: attempt
   * `retries + 1` in its bus scope, logged after `trace`; a failed attempt is
   * followed by the retry sleep. A clean attempt ends the poll; after a
   * failed one, what is left of the poll starts from the new bus state.
   */
  method RetryStep(s: Sensor, bus: RS485BusManager, transport: Transport, clock: Clock, retries: nat, trace: seq<Event>)
    returns (done: bool, data: Reading, trace': seq<Event>)
    requires s.instrument.Some? && HasPlanKeys(s.modbusAddress) && retries < s.maxRetries
    requires bus.Valid() && s.instrument.value.port !in bus.held
    modifies bus
    ensures bus.Valid() && s.instrument.value.port !in bus.held
    ensures done ==>
      Continued(trace, AttemptsFrom(s, transport, clock, old(bus.State()), retries))
        == Outcome(data, trace', bus.State())
    ensures !done ==>
      Continued(trace, AttemptsFrom(s, transport, clock, old(bus.State()), retries))
        == Continued(trace', AttemptsFrom(s, transport, clock, bus.State(), retries + 1))
  {
    ghost var before := bus.State();
    var got, scope := ScopedAttempt(s, bus, transport, clock, retries + 1);
    done := got.AllRead?;
    data := Reading(s.name, s.sensorType, map[]);
    if done {
      CleanStep(s, transport, clock, before, retries, trace);
      data := data.(payload := Decode(got.raws));
      trace' := trace + scope;
    } else {
      FailedStep(s, transport, clock, before, retries, trace);
      trace' := trace + (scope + [Sleep(s.retryDelay)]);
    }
  }

  /**
   * The retry loop of a poll whose instrument is open: up to `maxRetries`
   * attempts, each in its own scoped bus access, stopping at the first clean
   * one; when none is clean the reading carries the all-None payload.
   */
  method RetryLoop(s: Sensor, bus: RS485BusManager, transport: Transport, clock: Clock)
    returns (data: Reading, trace: seq<Event>)
    requires s.instrument.Some? && HasPlanKeys(s.modbusAddress)
    requires bus.Valid() && s.instrument.value.port !in bus.held
    modifies bus
    ensures bus.Valid()
    ensures AttemptsFrom(s, transport, clock, old(bus.State()), 0) == Outcome(data, trace, bus.State())
  {
    trace := [];
    data := NullReading(s);
    ghost var goal := AttemptsFrom(s, transport, clock, bus.State(), 0);
    var retries, done := 0, false;
    while retries < s.maxRetries && !done
      invariant retries <= s.maxRetries
      invariant bus.Valid() && s.instrument.value.port !in bus.held
      invariant !done ==> goal == Continued(trace, AttemptsFrom(s, transport, clock, bus.State(), retries))
      invariant done ==> goal == Outcome(data, trace, bus.State())
      decreases s.maxRetries - retries
    {
      done, data, trace := RetryStep(s, bus, transport, clock, retries, trace);
      retries := retries + 1;
    }
    if !done {
      assert trace + [] == trace;
      data := NullReading(s);
    }
  }

  /**
   * One poll: the reading, and the events in order; `bus` is updated by
   * every attempt's scoped access. An instrument that never opened gives the
   * all-None payload at once, with no bus access.
   */
  method ReadValues(s: Sensor, bus: RS485BusManager, transport: Transport, clock: Clock)
    returns (data: Reading, trace: seq<Event>)
    requires HasPlanKeys(s.modbusAddress) && bus.Valid()
    requires s.instrument.Some? ==> s.instrument.value.port !in bus.held
    modifies bus
    ensures bus.Valid()
    ensures ReadOutcome(s, transport, clock, old(bus.State())) == Outcome(data, trace, bus.State())
  {
    if s.instrument.None? {
      data, trace := NullReading(s), [];
      return;
    }
    data, trace := RetryLoop(s, bus, transport, clock);
  }
}
