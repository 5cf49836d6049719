/**
 * What one poll of `read_values` promises, proved about its model
 * `AttemptsFrom` / `ReadOutcome`: which attempts run and in what order,
 * the retry sleeps, the reads each attempt issues, the waits the bus imposes,
 * what the registry looks like afterwards, and the all-or-nothing payload.
 */
module ReadProperties {
  import opened Wrappers
  import opened Registers
  import opened Decoding
  import opened BusAccess
  import opened InterlockSensor

  // ---------------------------------------------------------------------
  // Measures of a trace
  // ---------------------------------------------------------------------

  /** The attempt numbers of the bus scopes entered, in order. */
  function Attempts(trace: seq<Event>): seq<int>
  {
    if trace == [] then []
    else (if trace[0].Acquire? then [trace[0].attempt] else []) + Attempts(trace[1..])
  }

  /** The retry sleeps, in order. */
  function Sleeps(trace: seq<Event>): seq<real>
  {
    if trace == [] then []
    else (if trace[0].Sleep? then [trace[0].seconds] else []) + Sleeps(trace[1..])
  }

  /** The waits slept on entering the bus scopes, in order. */
  function Waits(trace: seq<Event>): seq<real>
  {
    if trace == [] then []
    else (if trace[0].Acquire? then [trace[0].wait] else []) + Waits(trace[1..])
  }

  /** The read requests issued by attempt `n`, in order. */
  function ReadsOf(trace: seq<Event>, n: nat): seq<Request>
  {
    if trace == [] then []
    else (if trace[0].Read? && trace[0].attempt == n then [trace[0].request] else []) + ReadsOf(trace[1..], n)
  }

  /** Splitting a trace in two splits each measure the same way. */
  lemma MeasuresConcat(a: seq<Event>, b: seq<Event>, n: nat)
    ensures Attempts(a + b) == Attempts(a) + Attempts(b)
    ensures Sleeps(a + b) == Sleeps(a) + Sleeps(b)
    ensures Waits(a + b) == Waits(a) + Waits(b)
    ensures ReadsOf(a + b, n) == ReadsOf(a, n) + ReadsOf(b, n)
  {
    AttemptsConcat(a, b);
    SleepsConcat(a, b);
    WaitsConcat(a, b);
    ReadsOfConcat(a, b, n);
  }

  lemma {:induction false} AttemptsConcat(a: seq<Event>, b: seq<Event>)
    ensures Attempts(a + b) == Attempts(a) + Attempts(b)
    decreases |a|
  {
    if a == [] {
      assert a + b == b;
    } else {
      var head := if a[0].Acquire? then [a[0].attempt] else [];
      assert (a + b)[0] == a[0];
      assert (a + b)[1..] == a[1..] + b;
      assert Attempts(a + b) == head + Attempts(a[1..] + b);
      AttemptsConcat(a[1..], b);
      assert head + (Attempts(a[1..]) + Attempts(b)) == (head + Attempts(a[1..])) + Attempts(b);
    }
  }

  lemma {:induction false} SleepsConcat(a: seq<Event>, b: seq<Event>)
    ensures Sleeps(a + b) == Sleeps(a) + Sleeps(b)
    decreases |a|
  {
    if a == [] {
      assert a + b == b;
    } else {
      var head := if a[0].Sleep? then [a[0].seconds] else [];
      assert (a + b)[0] == a[0];
      assert (a + b)[1..] == a[1..] + b;
      assert Sleeps(a + b) == head + Sleeps(a[1..] + b);
      SleepsConcat(a[1..], b);
      assert head + (Sleeps(a[1..]) + Sleeps(b)) == (head + Sleeps(a[1..])) + Sleeps(b);
    }
  }

  lemma {:induction false} WaitsConcat(a: seq<Event>, b: seq<Event>)
    ensures Waits(a + b) == Waits(a) + Waits(b)
    decreases |a|
  {
    if a == [] {
      assert a + b == b;
    } else {
      var head := if a[0].Acquire? then [a[0].wait] else [];
      assert (a + b)[0] == a[0];
      assert (a + b)[1..] == a[1..] + b;
      assert Waits(a + b) == head + Waits(a[1..] + b);
      WaitsConcat(a[1..], b);
      assert head + (Waits(a[1..]) + Waits(b)) == (head + Waits(a[1..])) + Waits(b);
    }
  }

  lemma {:induction false} ReadsOfConcat(a: seq<Event>, b: seq<Event>, n: nat)
    ensures ReadsOf(a + b, n) == ReadsOf(a, n) + ReadsOf(b, n)
    decreases |a|
  {
    if a == [] {
      assert a + b == b;
    } else {
      assert (a + b)[1..] == a[1..] + b;
      ReadsOfConcat(a[1..], b, n);
    }
  }

  /** The first `m` requests of the read plan in `table` against `slave`. */
  function Plan(table: map<string, int>, slave: int, m: nat): (r: seq<Request>)
    requires HasPlanKeys(table) && m <= RegisterCount
    ensures |r| == m
    ensures forall k :: 0 <= k < m ==> r[k] == RequestAt(table, slave, k)
  {
    seq(m, k requires 0 <= k < m => RequestAt(table, slave, k))
  }

  /** A single read event: no entry, no sleep, no wait, and its own request for its own attempt. */
  lemma SingleRead(e: Event, other: nat)
    requires e.Read?
    ensures Attempts([e]) == [] && Sleeps([e]) == [] && Waits([e]) == []
    ensures ReadsOf([e], other) == if e.attempt == other then [e.request] else []
  {
    assert [e][1..] == [];
  }

  /** The read events of attempt `n` carry exactly the plan's first `m` requests, and nothing else. */
  lemma {:induction false} ReadEventsMeasures(table: map<string, int>, slave: int, n: nat, m: nat, other: nat)
    requires HasPlanKeys(table) && m <= RegisterCount
    ensures Attempts(ReadEvents(table, slave, n, m)) == []
    ensures Sleeps(ReadEvents(table, slave, n, m)) == []
    ensures Waits(ReadEvents(table, slave, n, m)) == []
    ensures ReadsOf(ReadEvents(table, slave, n, m), other) == if other == n then Plan(table, slave, m) else []
  {
    if m == 0 {
      assert ReadEvents(table, slave, n, 0) == [];
    } else {
      var prev := ReadEvents(table, slave, n, m - 1);
      var last: Event := Read(n, RequestAt(table, slave, m - 1));
      ReadEventsMeasures(table, slave, n, m - 1, other);
      assert ReadEvents(table, slave, n, m) == prev + [last] by {
        ReadEventsStep(table, slave, n, m - 1);
      }
      SingleRead(last, other);
      MeasuresConcat(prev, [last], other);
      assert Plan(table, slave, m) == Plan(table, slave, m - 1) + [RequestAt(table, slave, m - 1)];
    }
  }

  /** One attempt's bus scope: one entry, numbered `n`, with wait `wait`; no sleep; the plan's first reads. */
  lemma ScopeMeasures(s: Sensor, tx: Transaction, n: nat, wait: real, got: ReadsOutcome, other: nat)
    requires s.instrument.Some? && HasPlanKeys(s.modbusAddress)
    requires got.FailedAt? ==> got.index < RegisterCount
    ensures var scope := ScopeEvents(s, tx, n, wait, got);
      && Attempts(scope) == [n]
      && Sleeps(scope) == []
      && Waits(scope) == [wait]
      && ReadsOf(scope, other)
        == if other == n then Plan(s.modbusAddress, s.instrument.value.slaveAddress, Issued(got)) else []
  {
    var readEvents := ReadEvents(s.modbusAddress, s.instrument.value.slaveAddress, n, Issued(got));
    var enter: Event := Acquire(n, tx.port, wait);
    var leave: Event := Release(n, tx.port, tx.exitAt);
    ReadEventsMeasures(s.modbusAddress, s.instrument.value.slaveAddress, n, Issued(got), other);
    MeasuresConcat([enter], readEvents, other);
    MeasuresConcat([enter] + readEvents, [leave], other);
    assert [enter][1..] == [] && [leave][1..] == [];
  }

  /** The attempt number of a scope is its own. */
  lemma ScopeAttempts(s: Sensor, tx: Transaction, n: nat, wait: real, got: ReadsOutcome)
    requires s.instrument.Some? && HasPlanKeys(s.modbusAddress)
    requires got.FailedAt? ==> got.index < RegisterCount
    ensures Attempts(ScopeEvents(s, tx, n, wait, got)) == [n]
  {
    ScopeMeasures(s, tx, n, wait, got, 0);
  }

  /** A scope holds no retry sleep. */
  lemma ScopeSleeps(s: Sensor, tx: Transaction, n: nat, wait: real, got: ReadsOutcome)
    requires s.instrument.Some? && HasPlanKeys(s.modbusAddress)
    requires got.FailedAt? ==> got.index < RegisterCount
    ensures Sleeps(ScopeEvents(s, tx, n, wait, got)) == []
  {
    ScopeMeasures(s, tx, n, wait, got, 0);
  }

  /** A scope holds exactly its own entry wait. */
  lemma ScopeWaits(s: Sensor, tx: Transaction, n: nat, wait: real, got: ReadsOutcome)
    requires s.instrument.Some? && HasPlanKeys(s.modbusAddress)
    requires got.FailedAt? ==> got.index < RegisterCount
    ensures Waits(ScopeEvents(s, tx, n, wait, got)) == [wait]
  {
    ScopeMeasures(s, tx, n, wait, got, 0);
  }

  /** A scope holds the reads its attempt issued, and none of any other attempt. */
  lemma ScopeReads(s: Sensor, tx: Transaction, n: nat, wait: real, got: ReadsOutcome, other: nat)
    requires s.instrument.Some? && HasPlanKeys(s.modbusAddress)
    requires got.FailedAt? ==> got.index < RegisterCount
    ensures ReadsOf(ScopeEvents(s, tx, n, wait, got), other)
      == if other == n then Plan(s.modbusAddress, s.instrument.value.slaveAddress, Issued(got)) else []
  {
    ScopeMeasures(s, tx, n, wait, got, other);
  }

  // ---------------------------------------------------------------------
  // The attempts of a poll
  // ---------------------------------------------------------------------

  /** The `count` numbers `first`, `first + 1`, ... */
  function Numbered(first: nat, count: nat): (r: seq<int>)
    ensures |r| == count
    ensures forall i :: 0 <= i < count ==> r[i] == first + i
  {
    seq(count, i requires 0 <= i < count => first + i)
  }

  /** `k` copies of `d`. */
  function Repeat(d: real, k: nat): (r: seq<real>)
    ensures |r| == k
    ensures forall i :: 0 <= i < k ==> r[i] == d
  {
    seq(k, i requires 0 <= i < k => d)
  }

  /**
   * The first clean attempt after attempt `from`, up to attempt `max`, or 0
   * when every one of them fails.
   */
  function FirstClean(transport: Transport, from: nat, max: nat): (c: nat)
    ensures c == 0 || from < c <= max
    ensures c != 0 ==> Clean(transport, c)
    decreases max - from
  {
    if from >= max then 0
    else if Clean(transport, from + 1) then from + 1
    else FirstClean(transport, from + 1, max)
  }

  /** The first clean attempt is no later than any clean attempt: none before it is clean. */
  lemma {:induction false} FirstCleanIsFirst(transport: Transport, from: nat, max: nat, n: nat)
    requires from < n <= max && Clean(transport, n)
    ensures 0 < FirstClean(transport, from, max) <= n
    decreases max - from
  {
    if n != from + 1 && !Clean(transport, from + 1) {
      FirstCleanIsFirst(transport, from + 1, max, n);
    }
  }


  /** The last attempt a poll makes after `from` failed ones: the first clean one, or else attempt `max`. */
  function LastAttempt(transport: Transport, from: nat, max: nat): (last: nat)
    requires from <= max
    ensures from <= last <= max
  {
    var c := FirstClean(transport, from, max);
    if c == 0 then max else c
  }

  /** How many attempts a poll makes after `from` failed ones: through the first clean one, or up to attempt `max`. */
  function AttemptCount(transport: Transport, from: nat, max: nat): (k: nat)
    requires from <= max
    ensures k <= max - from
  {
    LastAttempt(transport, from, max) - from
  }

  /** How many of the attempts after attempt `from`, up to attempt `max`, fail before the first clean one (all of them when none is clean). */
  function Failures(transport: Transport, from: nat, max: nat): (k: nat)
    requires from <= max
    ensures k <= max - from
  {
    var c := FirstClean(transport, from, max);
    (if c == 0 then max else c - 1) - from
  }

  /** A clean attempt is the first clean one and ends the count. */
  lemma CleanCounts(transport: Transport, from: nat, max: nat)
    requires from < max && Clean(transport, from + 1)
    ensures FirstClean(transport, from, max) == from + 1
    ensures Failures(transport, from, max) == 0
    ensures LastAttempt(transport, from, max) == from + 1
    ensures AttemptCount(transport, from, max) == 1
  {
  }

  /** A failed attempt adds one failure and one attempt, and leaves the last attempt where it was. */
  lemma FailedCounts(transport: Transport, from: nat, max: nat)
    requires from < max && !Clean(transport, from + 1)
    ensures Failures(transport, from, max) == Failures(transport, from + 1, max) + 1
    ensures LastAttempt(transport, from, max) == LastAttempt(transport, from + 1, max)
    ensures AttemptCount(transport, from, max) == AttemptCount(transport, from + 1, max) + 1
  {
  }

  /** When no attempt from `from + 1` to `max` is clean, there is no first clean one: the poll makes every attempt, each of them failed. */
  lemma NoCleanAttempt(transport: Transport, from: nat, max: nat)
    requires from <= max
    requires forall n :: from < n <= max ==> !Clean(transport, n)
    ensures FirstClean(transport, from, max) == 0
    ensures LastAttempt(transport, from, max) == max
    ensures AttemptCount(transport, from, max) == max - from
    ensures Failures(transport, from, max) == max - from
  {
  }

  /** The common requirement of the poll lemmas. */
  predicate Polling(s: Sensor, reg: Registry, retries: nat) {
    s.instrument.Some? && HasPlanKeys(s.modbusAddress) && reg.Valid() && retries <= s.maxRetries
  }

  /** A failed attempt: its scope, one retry sleep, then the remaining attempts from the registry it left. */
  lemma FailedAttempt(s: Sensor, transport: Transport, clock: Clock, reg: Registry, retries: nat)
    requires Polling(s, reg, retries) && retries < s.maxRetries && !Clean(transport, retries + 1)
    ensures var tx := AttemptTransaction(s, clock, retries + 1);
      var o := AttemptsFrom(s, transport, clock, reg, retries);
      var rest := AttemptsFrom(s, transport, clock, reg.Transact(tx), retries + 1);
      && o.trace == ScopeEvents(s, tx, retries + 1, reg.WaitFor(tx), ReadsFrom(transport, retries + 1, 0))
                    + [Sleep(s.retryDelay)] + rest.trace
      && o.data == rest.data && o.registry == rest.registry
      && FirstClean(transport, retries, s.maxRetries) == FirstClean(transport, retries + 1, s.maxRetries)
  {
    CleanReads(transport, retries + 1);
  }

  /** A clean attempt: its scope alone, the decoded reading, and the registry it left. */
  lemma CleanAttempt(s: Sensor, transport: Transport, clock: Clock, reg: Registry, retries: nat)
    requires Polling(s, reg, retries) && retries < s.maxRetries && Clean(transport, retries + 1)
    ensures var tx := AttemptTransaction(s, clock, retries + 1);
      var got := ReadsFrom(transport, retries + 1, 0);
      var o := AttemptsFrom(s, transport, clock, reg, retries);
      && o.trace == ScopeEvents(s, tx, retries + 1, reg.WaitFor(tx), got)
      && o.data == Reading(s.name, s.sensorType, Decode(got.raws))
      && o.registry == reg.Transact(tx)
      && FirstClean(transport, retries, s.maxRetries) == retries + 1
  {
    CleanReads(transport, retries + 1);
  }

  /** The attempt numbers of a failed attempt's scope, its sleep and the rest of the trace. */
  lemma FailedAttempts(scope: seq<Event>, d: real, rest: seq<Event>)
    ensures Attempts(scope + [Sleep(d)] + rest) == Attempts(scope) + Attempts(rest)
  {
    var z: Event := Sleep(d);
    assert Attempts([z]) == [] by { assert [z][1..] == []; }
    AttemptsConcat(scope, [z]);
    AttemptsConcat(scope + [z], rest);
    assert Attempts(scope) + [] == Attempts(scope);
  }

  /** The sleeps of a failed attempt's scope, its sleep and the rest of the trace. */
  lemma FailedSleeps(scope: seq<Event>, d: real, rest: seq<Event>)
    ensures Sleeps(scope + [Sleep(d)] + rest) == Sleeps(scope) + ([d] + Sleeps(rest))
  {
    var z: Event := Sleep(d);
    assert Sleeps([z]) == [d] by { assert [z][1..] == []; }
    SleepsConcat(scope, [z]);
    SleepsConcat(scope + [z], rest);
    assert Sleeps(scope) + [d] + Sleeps(rest) == Sleeps(scope) + ([d] + Sleeps(rest));
  }

  /** The entry waits of a failed attempt's scope, its sleep and the rest of the trace. */
  lemma FailedWaits(scope: seq<Event>, d: real, rest: seq<Event>)
    ensures Waits(scope + [Sleep(d)] + rest) == Waits(scope) + Waits(rest)
  {
    var z: Event := Sleep(d);
    assert Waits([z]) == [] by { assert [z][1..] == []; }
    WaitsConcat(scope, [z]);
    WaitsConcat(scope + [z], rest);
    assert Waits(scope) + [] == Waits(scope);
  }

  /** The reads of attempt `m` in a failed attempt's scope, its sleep and the rest of the trace. */
  lemma FailedReads(scope: seq<Event>, d: real, rest: seq<Event>, m: nat)
    ensures ReadsOf(scope + [Sleep(d)] + rest, m) == ReadsOf(scope, m) + ReadsOf(rest, m)
  {
    var z: Event := Sleep(d);
    assert ReadsOf([z], m) == [] by { assert [z][1..] == []; }
    ReadsOfConcat(scope, [z], m);
    ReadsOfConcat(scope + [z], rest, m);
    assert ReadsOf(scope, m) + [] == ReadsOf(scope, m);
  }

  /** Prepending `a` to `k` numbers from `a + 1` gives `k + 1` numbers from `a`. */
  lemma NumberedCons(a: nat, k: nat, tail: seq<int>)
    requires tail == Numbered(a + 1, k)
    ensures [a] + tail == Numbered(a, k + 1)
  {
    assert forall i :: 0 <= i < k + 1 ==> ([a] + tail)[i] == Numbered(a, k + 1)[i];
  }

  /** Prepending one `d` to `k` copies gives `k + 1` copies. */
  lemma RepeatCons(d: real, k: nat)
    ensures [d] + Repeat(d, k) == Repeat(d, k + 1)
  {
    assert forall i :: 0 <= i < k + 1 ==> ([d] + Repeat(d, k))[i] == Repeat(d, k + 1)[i];
  }

  /** A clean attempt is the only attempt of the poll from there on. */
  lemma CleanAttemptNumbers(s: Sensor, transport: Transport, clock: Clock, reg: Registry, retries: nat)
    requires Polling(s, reg, retries) && retries < s.maxRetries && Clean(transport, retries + 1)
    ensures Attempts(AttemptsFrom(s, transport, clock, reg, retries).trace)
      == Numbered(retries + 1, AttemptCount(transport, retries, s.maxRetries))
  {
    var n := retries + 1;
    var tx := AttemptTransaction(s, clock, n);
    ScopeAttempts(s, tx, n, reg.WaitFor(tx), ReadsFrom(transport, n, 0));
    CleanCounts(transport, retries, s.maxRetries);
    CleanAttempt(s, transport, clock, reg, retries);
    NumberedOne(n);
  }

  /** A failed attempt puts its own number in front of those of the attempts after it. */
  lemma FailedAttemptNumbers(s: Sensor, transport: Transport, clock: Clock, reg: Registry, retries: nat)
    requires Polling(s, reg, retries) && retries < s.maxRetries && !Clean(transport, retries + 1)
    requires var tx := AttemptTransaction(s, clock, retries + 1);
      Attempts(AttemptsFrom(s, transport, clock, reg.Transact(tx), retries + 1).trace)
        == Numbered(retries + 2, AttemptCount(transport, retries + 1, s.maxRetries))
    ensures Attempts(AttemptsFrom(s, transport, clock, reg, retries).trace)
      == Numbered(retries + 1, AttemptCount(transport, retries, s.maxRetries))
  {
    var n := retries + 1;
    var tx := AttemptTransaction(s, clock, n);
    var got := ReadsFrom(transport, n, 0);
    var scope := ScopeEvents(s, tx, n, reg.WaitFor(tx), got);
    var rest := AttemptsFrom(s, transport, clock, reg.Transact(tx), n).trace;
    ScopeAttempts(s, tx, n, reg.WaitFor(tx), got);
    FailedCounts(transport, retries, s.maxRetries);
    FailedAttempt(s, transport, clock, reg, retries);
    FailedAttempts(scope, s.retryDelay, rest);
    NumberedCons(n, AttemptCount(transport, n, s.maxRetries), Attempts(rest));
  }

  /** One number from `a` is `a` alone. */
  lemma NumberedOne(a: nat)
    ensures Numbered(a, 1) == [a]
  {
  }

  /**
   * The attempts of a poll after `retries` failed ones are numbered
   * `retries + 1`, `retries + 2`, ... in order, up to and including the first
   * clean one, or up to `maxRetries` when none is clean.
   */
  lemma {:induction false} AttemptNumbers(s: Sensor, transport: Transport, clock: Clock, reg: Registry, retries: nat)
    requires Polling(s, reg, retries)
    ensures Attempts(AttemptsFrom(s, transport, clock, reg, retries).trace)
      == Numbered(retries + 1, AttemptCount(transport, retries, s.maxRetries))
    decreases s.maxRetries - retries
  {
    if retries < s.maxRetries {
      if Clean(transport, retries + 1) {
        CleanAttemptNumbers(s, transport, clock, reg, retries);
      } else {
        AttemptNumbers(s, transport, clock, reg.Transact(AttemptTransaction(s, clock, retries + 1)), retries + 1);
        FailedAttemptNumbers(s, transport, clock, reg, retries);
      }
    }
  }

  /** A clean attempt sleeps nothing and ends the poll. */
  lemma CleanAttemptSleeps(s: Sensor, transport: Transport, clock: Clock, reg: Registry, retries: nat)
    requires Polling(s, reg, retries) && retries < s.maxRetries && Clean(transport, retries + 1)
    ensures Sleeps(AttemptsFrom(s, transport, clock, reg, retries).trace)
      == Repeat(s.retryDelay, Failures(transport, retries, s.maxRetries))
  {
    var n := retries + 1;
    var tx := AttemptTransaction(s, clock, n);
    ScopeSleeps(s, tx, n, reg.WaitFor(tx), ReadsFrom(transport, n, 0));
    CleanCounts(transport, retries, s.maxRetries);
    CleanAttempt(s, transport, clock, reg, retries);
  }

  /** A failed attempt puts one retry sleep in front of those of the attempts after it. */
  lemma FailedAttemptSleeps(s: Sensor, transport: Transport, clock: Clock, reg: Registry, retries: nat)
    requires Polling(s, reg, retries) && retries < s.maxRetries && !Clean(transport, retries + 1)
    requires var tx := AttemptTransaction(s, clock, retries + 1);
      Sleeps(AttemptsFrom(s, transport, clock, reg.Transact(tx), retries + 1).trace)
        == Repeat(s.retryDelay, Failures(transport, retries + 1, s.maxRetries))
    ensures Sleeps(AttemptsFrom(s, transport, clock, reg, retries).trace)
      == Repeat(s.retryDelay, Failures(transport, retries, s.maxRetries))
  {
    var n := retries + 1;
    var tx := AttemptTransaction(s, clock, n);
    var got := ReadsFrom(transport, n, 0);
    var scope := ScopeEvents(s, tx, n, reg.WaitFor(tx), got);
    var rest := AttemptsFrom(s, transport, clock, reg.Transact(tx), n).trace;
    var k := Failures(transport, n, s.maxRetries);
    ScopeSleeps(s, tx, n, reg.WaitFor(tx), got);
    FailedCounts(transport, retries, s.maxRetries);
    FailedAttempt(s, transport, clock, reg, retries);
    FailedSleeps(scope, s.retryDelay, rest);
    assert [] + ([s.retryDelay] + Repeat(s.retryDelay, k)) == [s.retryDelay] + Repeat(s.retryDelay, k);
    RepeatCons(s.retryDelay, k);
  }

  /**
   * Every failed attempt is followed by exactly one retry sleep of
   * `retryDelay`, the last one included; a clean attempt by none.
   */
  lemma {:induction false} RetrySleeps(s: Sensor, transport: Transport, clock: Clock, reg: Registry, retries: nat)
    requires Polling(s, reg, retries)
    ensures Sleeps(AttemptsFrom(s, transport, clock, reg, retries).trace)
      == Repeat(s.retryDelay, Failures(transport, retries, s.maxRetries))
    decreases s.maxRetries - retries
  {
    if retries < s.maxRetries {
      if Clean(transport, retries + 1) {
        CleanAttemptSleeps(s, transport, clock, reg, retries);
      } else {
        RetrySleeps(s, transport, clock, reg.Transact(AttemptTransaction(s, clock, retries + 1)), retries + 1);
        FailedAttemptSleeps(s, transport, clock, reg, retries);
      }
    }
  }

  /** The port every attempt of the sensor's poll goes through. */
  function PortOf(s: Sensor): string
    requires s.instrument.Some?
  {
    s.instrument.value.port
  }

  /**
   * The requests attempt `m` issues in a poll after `retries` failed attempts,
   * as the poll promises them: for an attempt the poll makes, the first
   * `Issued` reads of the plan (all seven for a clean attempt, up to and
   * including the failing read otherwise); for any other, none.
   */
  function ExpectedReads(s: Sensor, transport: Transport, retries: nat, m: nat): (r: seq<Request>)
    requires s.instrument.Some? && HasPlanKeys(s.modbusAddress) && retries <= s.maxRetries
    ensures |r| <= RegisterCount
  {
    if retries < m <= LastAttempt(transport, retries, s.maxRetries)
    then Plan(s.modbusAddress, s.instrument.value.slaveAddress, Issued(ReadsFrom(transport, m, 0)))
    else []
  }

  /** A clean attempt issues the whole plan and is the last attempt. */
  lemma CleanAttemptReads(s: Sensor, transport: Transport, clock: Clock, reg: Registry, retries: nat, m: nat)
    requires Polling(s, reg, retries) && retries < s.maxRetries && Clean(transport, retries + 1)
    ensures ReadsOf(AttemptsFrom(s, transport, clock, reg, retries).trace, m) == ExpectedReads(s, transport, retries, m)
  {
    var n := retries + 1;
    var tx := AttemptTransaction(s, clock, n);
    ScopeReads(s, tx, n, reg.WaitFor(tx), ReadsFrom(transport, n, 0), m);
    CleanCounts(transport, retries, s.maxRetries);
    CleanAttempt(s, transport, clock, reg, retries);
  }

  /** A failed attempt's reads come first; those of later attempts follow it. */
  lemma FailedAttemptReads(s: Sensor, transport: Transport, clock: Clock, reg: Registry, retries: nat, m: nat)
    requires Polling(s, reg, retries) && retries < s.maxRetries && !Clean(transport, retries + 1)
    requires var tx := AttemptTransaction(s, clock, retries + 1);
      ReadsOf(AttemptsFrom(s, transport, clock, reg.Transact(tx), retries + 1).trace, m)
        == ExpectedReads(s, transport, retries + 1, m)
    ensures ReadsOf(AttemptsFrom(s, transport, clock, reg, retries).trace, m) == ExpectedReads(s, transport, retries, m)
  {
    var n := retries + 1;
    var tx := AttemptTransaction(s, clock, n);
    var got := ReadsFrom(transport, n, 0);
    var scope := ScopeEvents(s, tx, n, reg.WaitFor(tx), got);
    var rest := AttemptsFrom(s, transport, clock, reg.Transact(tx), n).trace;
    ScopeReads(s, tx, n, reg.WaitFor(tx), got, m);
    FailedCounts(transport, retries, s.maxRetries);
    FailedAttempt(s, transport, clock, reg, retries);
    FailedReads(scope, s.retryDelay, rest, m);
    if m == n {
      assert ReadsOf(scope, m) + [] == ReadsOf(scope, m);
    } else {
      assert [] + ReadsOf(rest, m) == ReadsOf(rest, m);
    }
  }

  /**
   * Each attempt the poll makes issues the reads of the plan in order, from
   * the first register up to the first failing read or through all seven,
   * and no read is issued on behalf of an attempt the poll does not make.
   */
  lemma {:induction false} AttemptReads(s: Sensor, transport: Transport, clock: Clock, reg: Registry, retries: nat, m: nat)
    requires Polling(s, reg, retries)
    ensures ReadsOf(AttemptsFrom(s, transport, clock, reg, retries).trace, m) == ExpectedReads(s, transport, retries, m)
    decreases s.maxRetries - retries
  {
    if retries < s.maxRetries {
      if Clean(transport, retries + 1) {
        CleanAttemptReads(s, transport, clock, reg, retries, m);
      } else {
        AttemptReads(s, transport, clock, reg.Transact(AttemptTransaction(s, clock, retries + 1)), retries + 1, m);
        FailedAttemptReads(s, transport, clock, reg, retries, m);
      }
    }
  }

  /**
   * The entry waits of the `count` attempts after attempt `from`: the first measured from
   * the port's timestamp `first`, each later one from the exit reading of the
   * attempt before it.
   */
  function EntryWaits(s: Sensor, clock: Clock, first: real, from: nat, count: nat): (r: seq<real>)
    ensures |r| == count
  {
    seq(count, i requires 0 <= i < count =>
      WaitTime(s.preDelay, clock.enterAt(from + 1 + i), if i == 0 then first else clock.exitAt(from + i)))
  }

  /** The first entry wait, then those of the attempts after it. */
  lemma EntryWaitsCons(s: Sensor, clock: Clock, first: real, from: nat, k: nat, tail: seq<real>)
    requires tail == EntryWaits(s, clock, clock.exitAt(from + 1), from + 1, k)
    ensures [WaitTime(s.preDelay, clock.enterAt(from + 1), first)] + tail == EntryWaits(s, clock, first, from, k + 1)
  {
    var r := [WaitTime(s.preDelay, clock.enterAt(from + 1), first)] + tail;
    assert forall i :: 0 <= i < k + 1 ==> r[i] == EntryWaits(s, clock, first, from, k + 1)[i];
  }

  /** Each wait of a poll's first `count` attempts keeps the pre-delay since the stamp it is measured from. */
  lemma EntryWaitsSpacing(s: Sensor, clock: Clock, first: real, count: nat)
    ensures var w := EntryWaits(s, clock, first, 0, count);
      && (0 < count ==> clock.enterAt(1) + w[0] >= first + s.preDelay)
      && forall i :: 0 < i < count ==> clock.enterAt(i + 1) + w[i] >= clock.exitAt(i) + s.preDelay
  {
    var w := EntryWaits(s, clock, first, 0, count);
    forall i | 0 < i < count
      ensures clock.enterAt(i + 1) + w[i] >= clock.exitAt(i) + s.preDelay
    {
      assert w[i] == WaitTime(s.preDelay, clock.enterAt(i + 1), clock.exitAt(i));
    }
  }

  /** A clean attempt's wait is measured from the port's timestamp, and it is the last one. */
  lemma CleanAttemptWaits(s: Sensor, transport: Transport, clock: Clock, reg: Registry, retries: nat)
    requires Polling(s, reg, retries) && retries < s.maxRetries && Clean(transport, retries + 1)
    ensures Waits(AttemptsFrom(s, transport, clock, reg, retries).trace)
      == EntryWaits(s, clock, reg.Last(PortOf(s)), retries, AttemptCount(transport, retries, s.maxRetries))
  {
    var n := retries + 1;
    var tx := AttemptTransaction(s, clock, n);
    ScopeWaits(s, tx, n, reg.WaitFor(tx), ReadsFrom(transport, n, 0));
    CleanCounts(transport, retries, s.maxRetries);
    CleanAttempt(s, transport, clock, reg, retries);
    EntryWaitsCons(s, clock, reg.Last(PortOf(s)), retries, 0, []);
  }

  /** A failed attempt stamps the port; the next attempt's wait is measured from that stamp. */
  lemma FailedAttemptWaits(s: Sensor, transport: Transport, clock: Clock, reg: Registry, retries: nat)
    requires Polling(s, reg, retries) && retries < s.maxRetries && !Clean(transport, retries + 1)
    requires var tx := AttemptTransaction(s, clock, retries + 1);
      Waits(AttemptsFrom(s, transport, clock, reg.Transact(tx), retries + 1).trace)
        == EntryWaits(s, clock, reg.Transact(tx).Last(PortOf(s)), retries + 1, AttemptCount(transport, retries + 1, s.maxRetries))
    ensures Waits(AttemptsFrom(s, transport, clock, reg, retries).trace)
      == EntryWaits(s, clock, reg.Last(PortOf(s)), retries, AttemptCount(transport, retries, s.maxRetries))
  {
    var n := retries + 1;
    var tx := AttemptTransaction(s, clock, n);
    var got := ReadsFrom(transport, n, 0);
    var scope := ScopeEvents(s, tx, n, reg.WaitFor(tx), got);
    var rest := AttemptsFrom(s, transport, clock, reg.Transact(tx), n).trace;
    ScopeWaits(s, tx, n, reg.WaitFor(tx), got);
    FailedCounts(transport, retries, s.maxRetries);
    FailedAttempt(s, transport, clock, reg, retries);
    FailedWaits(scope, s.retryDelay, rest);
    EntryWaitsCons(s, clock, reg.Last(PortOf(s)), retries, AttemptCount(transport, n, s.maxRetries), Waits(rest));
  }

  /**
   * The wait each attempt sleeps on entering the bus scope is the pre-delay
   * wait against the port's timestamp at that moment: the registry's for the
   * first attempt, the previous attempt's exit reading for every later one.
   */
  lemma {:induction false} AttemptWaits(s: Sensor, transport: Transport, clock: Clock, reg: Registry, retries: nat)
    requires Polling(s, reg, retries)
    ensures Waits(AttemptsFrom(s, transport, clock, reg, retries).trace)
      == EntryWaits(s, clock, reg.Last(PortOf(s)), retries, AttemptCount(transport, retries, s.maxRetries))
    decreases s.maxRetries - retries
  {
    if retries < s.maxRetries {
      if Clean(transport, retries + 1) {
        CleanAttemptWaits(s, transport, clock, reg, retries);
      } else {
        AttemptWaits(s, transport, clock, reg.Transact(AttemptTransaction(s, clock, retries + 1)), retries + 1);
        FailedAttemptWaits(s, transport, clock, reg, retries);
      }
    } else {
      assert EntryWaits(s, clock, reg.Last(PortOf(s)), retries, 0) == [];
    }
  }

  /** The reading a poll after `retries` failed attempts returns, as the poll promises it. */
  function ExpectedData(s: Sensor, transport: Transport, retries: nat): (r: Reading)
    requires retries <= s.maxRetries
    ensures r.sensorId == s.name && r.sensorType == s.sensorType
  {
    var c := FirstClean(transport, retries, s.maxRetries);
    if c == 0 then NullReading(s)
    else
      CleanReads(transport, c);
      Reading(s.name, s.sensorType, Decode(ReadsFrom(transport, c, 0).raws))
  }

  /**
   * The reading is decoded from the first clean attempt's seven values, and
   * is the all-None reading when every remaining attempt fails.
   */
  lemma {:induction false} PollData(s: Sensor, transport: Transport, clock: Clock, reg: Registry, retries: nat)
    requires Polling(s, reg, retries)
    ensures AttemptsFrom(s, transport, clock, reg, retries).data == ExpectedData(s, transport, retries)
    decreases s.maxRetries - retries
  {
    if retries < s.maxRetries {
      if Clean(transport, retries + 1) {
        CleanAttempt(s, transport, clock, reg, retries);
      } else {
        PollData(s, transport, clock, reg.Transact(AttemptTransaction(s, clock, retries + 1)), retries + 1);
        FailedAttempt(s, transport, clock, reg, retries);
      }
    }
  }

  /** The registry a poll after `retries` failed attempts promises to leave, as seen through one port `q`. */
  predicate RegistryAfterPoll(s: Sensor, transport: Transport, clock: Clock, reg: Registry, retries: nat, q: string, r: Registry)
    requires Polling(s, reg, retries)
  {
    && r.Valid()
    && r.held == (if retries < s.maxRetries then reg.held - {PortOf(s)} else reg.held)
    && r.Last(q) == (if q == PortOf(s) && retries < s.maxRetries
                     then clock.exitAt(LastAttempt(transport, retries, s.maxRetries))
                     else reg.Last(q))
  }

  /** A clean attempt's transaction is the poll's last. */
  lemma CleanAttemptRegistry(s: Sensor, transport: Transport, clock: Clock, reg: Registry, retries: nat, q: string)
    requires Polling(s, reg, retries) && retries < s.maxRetries && Clean(transport, retries + 1)
    ensures RegistryAfterPoll(s, transport, clock, reg, retries, q, AttemptsFrom(s, transport, clock, reg, retries).registry)
  {
    CleanCounts(transport, retries, s.maxRetries);
    TransactLast(reg, AttemptTransaction(s, clock, retries + 1), q);
    CleanAttempt(s, transport, clock, reg, retries);
  }

  /** A failed attempt's transaction comes first; those of later attempts are run on the registry it left. */
  lemma FailedAttemptRegistry(s: Sensor, transport: Transport, clock: Clock, reg: Registry, retries: nat, q: string)
    requires Polling(s, reg, retries) && retries < s.maxRetries && !Clean(transport, retries + 1)
    requires var reg' := reg.Transact(AttemptTransaction(s, clock, retries + 1));
      RegistryAfterPoll(s, transport, clock, reg', retries + 1, q, AttemptsFrom(s, transport, clock, reg', retries + 1).registry)
    ensures RegistryAfterPoll(s, transport, clock, reg, retries, q, AttemptsFrom(s, transport, clock, reg, retries).registry)
  {
    var reg' := reg.Transact(AttemptTransaction(s, clock, retries + 1));
    FailedCounts(transport, retries, s.maxRetries);
    TransactLast(reg, AttemptTransaction(s, clock, retries + 1), q);
    FailedAttempt(s, transport, clock, reg, retries);
    assert reg'.held - {PortOf(s)} == reg.held - {PortOf(s)};
  }

  /**
   * The registry after a poll: when the poll makes an attempt, the sensor's
   * port is stamped with the last attempt's exit reading and not held; every
   * other port keeps its timestamp. A poll with no attempt left changes nothing.
   */
  lemma {:induction false} PollRegistry(s: Sensor, transport: Transport, clock: Clock, reg: Registry, retries: nat, q: string)
    requires Polling(s, reg, retries)
    ensures RegistryAfterPoll(s, transport, clock, reg, retries, q, AttemptsFrom(s, transport, clock, reg, retries).registry)
    decreases s.maxRetries - retries
  {
    if retries < s.maxRetries {
      if Clean(transport, retries + 1) {
        CleanAttemptRegistry(s, transport, clock, reg, retries, q);
      } else {
        PollRegistry(s, transport, clock, reg.Transact(AttemptTransaction(s, clock, retries + 1)), retries + 1, q);
        FailedAttemptRegistry(s, transport, clock, reg, retries, q);
      }
    }
  }

  /** Every bus-scope event of `trace`, entry or exit, names port `port`. */
  predicate OnPort(trace: seq<Event>, port: string) {
    forall i :: 0 <= i < |trace| && (trace[i].Acquire? || trace[i].Release?) ==> trace[i].port == port
  }

  /** Two traces that only enter and leave `port` make one that does too. */
  lemma OnPortConcat(a: seq<Event>, b: seq<Event>, port: string)
    requires OnPort(a, port) && OnPort(b, port)
    ensures OnPort(a + b, port)
  {
    forall i | 0 <= i < |a + b| && ((a + b)[i].Acquire? || (a + b)[i].Release?)
      ensures (a + b)[i].port == port
    {
      if i >= |a| {
        assert (a + b)[i] == b[i - |a|];
      }
    }
  }

  /** One attempt's bus scope enters and leaves the sensor's own port; its reads are no scope events. */
  lemma ScopePorts(s: Sensor, clock: Clock, n: nat, wait: real, got: ReadsOutcome)
    requires s.instrument.Some? && HasPlanKeys(s.modbusAddress)
    requires got.FailedAt? ==> got.index < RegisterCount
    ensures OnPort(ScopeEvents(s, AttemptTransaction(s, clock, n), n, wait, got), PortOf(s))
  {
    var es := ScopeEvents(s, AttemptTransaction(s, clock, n), n, wait, got);
    var readEvents := ReadEvents(s.modbusAddress, s.instrument.value.slaveAddress, n, Issued(got));
    forall i | 0 <= i < |es|
      ensures (es[i].Acquire? || es[i].Release?) ==> es[i].port == PortOf(s)
    {
      if 0 < i < |es| - 1 {
        assert es[i] == readEvents[i - 1];
      }
    }
  }

  /**
   * Every attempt of a poll enters and leaves the bus scope of the
   * instrument's own port, and of no other.
   */
  lemma {:induction false} AttemptPorts(s: Sensor, transport: Transport, clock: Clock, reg: Registry, retries: nat)
    requires Polling(s, reg, retries)
    ensures OnPort(AttemptsFrom(s, transport, clock, reg, retries).trace, PortOf(s))
    decreases s.maxRetries - retries
  {
    if retries < s.maxRetries {
      var n := retries + 1;
      var tx := AttemptTransaction(s, clock, n);
      var scope := ScopeEvents(s, tx, n, reg.WaitFor(tx), ReadsFrom(transport, n, 0));
      ScopePorts(s, clock, n, reg.WaitFor(tx), ReadsFrom(transport, n, 0));
      if Clean(transport, n) {
        CleanAttempt(s, transport, clock, reg, retries);
      } else {
        AttemptPorts(s, transport, clock, reg.Transact(tx), n);
        FailedAttempt(s, transport, clock, reg, retries);
        OnPortConcat(scope, [Sleep(s.retryDelay)], PortOf(s));
        OnPortConcat(scope + [Sleep(s.retryDelay)], AttemptsFrom(s, transport, clock, reg.Transact(tx), n).trace, PortOf(s));
      }
    }
  }

  // ---------------------------------------------------------------------
  // One whole poll
  // ---------------------------------------------------------------------

  /**
   * A poll of a sensor whose instrument did not open issues no bus traffic,
   * sleeps nothing, leaves the registry as it was, and returns the all-None
   * reading.
   */
  lemma NoInstrumentPoll(s: Sensor, transport: Transport, clock: Clock, reg: Registry)
    requires HasPlanKeys(s.modbusAddress) && reg.Valid() && s.instrument.None?
    ensures ReadOutcome(s, transport, clock, reg) == Outcome(NullReading(s), [], reg)
    ensures ReadOutcome(s, transport, clock, reg).data.payload.Keys == NullKeys
    ensures forall k :: k in ReadOutcome(s, transport, clock, reg).data.payload ==>
      ReadOutcome(s, transport, clock, reg).data.payload[k] == None
  {
    NullPayloadShape();
  }

  /**
   * A whole poll of a sensor with an instrument: attempts 1 up to the first
   * clean one (or up to `maxRetries`) in order, one retry sleep after each
   * failed one, each attempt's entry wait measured from the port's last
   * stamp, its reads the plan's, the reading decoded from the first clean
   * attempt or all-None, the registry stamped with the last exit, and
   * every bus scope on the instrument's port.
   */
  lemma PollSummary(s: Sensor, transport: Transport, clock: Clock, reg: Registry)
    requires s.instrument.Some? && HasPlanKeys(s.modbusAddress) && reg.Valid()
    ensures var o := ReadOutcome(s, transport, clock, reg);
      var count := AttemptCount(transport, 0, s.maxRetries);
      && Attempts(o.trace) == Numbered(1, count)
      && Sleeps(o.trace) == Repeat(s.retryDelay, Failures(transport, 0, s.maxRetries))
      && Waits(o.trace) == EntryWaits(s, clock, reg.Last(PortOf(s)), 0, count)
      && o.data == ExpectedData(s, transport, 0)
      && (forall m :: ReadsOf(o.trace, m) == ExpectedReads(s, transport, 0, m))
      && (forall q :: RegistryAfterPoll(s, transport, clock, reg, 0, q, o.registry))
      && OnPort(o.trace, PortOf(s))
  {
    var o := AttemptsFrom(s, transport, clock, reg, 0);
    var count := AttemptCount(transport, 0, s.maxRetries);
    assert Attempts(o.trace) == Numbered(1, count) by {
      AttemptNumbers(s, transport, clock, reg, 0);
    }
    assert Sleeps(o.trace) == Repeat(s.retryDelay, Failures(transport, 0, s.maxRetries)) by {
      RetrySleeps(s, transport, clock, reg, 0);
    }
    assert Waits(o.trace) == EntryWaits(s, clock, reg.Last(PortOf(s)), 0, count) by {
      AttemptWaits(s, transport, clock, reg, 0);
    }
    assert o.data == ExpectedData(s, transport, 0) by {
      PollData(s, transport, clock, reg, 0);
    }
    forall m
      ensures ReadsOf(o.trace, m) == ExpectedReads(s, transport, 0, m)
    {
      AttemptReads(s, transport, clock, reg, 0, m);
    }
    forall q
      ensures RegistryAfterPoll(s, transport, clock, reg, 0, q, o.registry)
    {
      PollRegistry(s, transport, clock, reg, 0, q);
    }
    assert OnPort(o.trace, PortOf(s)) by {
      AttemptPorts(s, transport, clock, reg, 0);
    }
  }

  /**
   * Exhaustion: when every attempt fails, the poll makes all `maxRetries`
   * attempts, sleeps `retryDelay` after each of them (the last one too), and
   * returns the all-None reading.
   */
  lemma Exhaustion(s: Sensor, transport: Transport, clock: Clock, reg: Registry)
    requires s.instrument.Some? && HasPlanKeys(s.modbusAddress) && reg.Valid()
    requires forall n :: 1 <= n <= s.maxRetries ==> !Clean(transport, n)
    ensures var o := ReadOutcome(s, transport, clock, reg);
      && Attempts(o.trace) == Numbered(1, s.maxRetries)
      && Sleeps(o.trace) == Repeat(s.retryDelay, s.maxRetries)
      && o.data == NullReading(s)
  {
    var o := AttemptsFrom(s, transport, clock, reg, 0);
    NoCleanAttempt(transport, 0, s.maxRetries);
    assert Attempts(o.trace) == Numbered(1, s.maxRetries) by {
      AttemptNumbers(s, transport, clock, reg, 0);
    }
    assert Sleeps(o.trace) == Repeat(s.retryDelay, s.maxRetries) by {
      RetrySleeps(s, transport, clock, reg, 0);
    }
    PollData(s, transport, clock, reg, 0);
  }

  /** A clean first attempt is the only one: no sleep, and the reading decoded from its values. */
  lemma CleanFirstAttempt(s: Sensor, transport: Transport, clock: Clock, reg: Registry)
    requires s.instrument.Some? && HasPlanKeys(s.modbusAddress) && reg.Valid()
    requires 0 < s.maxRetries && Clean(transport, 1)
    ensures var o := ReadOutcome(s, transport, clock, reg);
      && Attempts(o.trace) == [1]
      && Sleeps(o.trace) == []
      && o.data == Reading(s.name, s.sensorType, Decode(ReadsFrom(transport, 1, 0).raws))
  {
    var o := AttemptsFrom(s, transport, clock, reg, 0);
    assert FirstClean(transport, 0, s.maxRetries) == 1 && Failures(transport, 0, s.maxRetries) == 0 && AttemptCount(transport, 0, s.maxRetries) == 1;
    assert Attempts(o.trace) == [1] by {
      AttemptNumbers(s, transport, clock, reg, 0);
      NumberedOne(1);
    }
    assert Sleeps(o.trace) == [] by {
      RetrySleeps(s, transport, clock, reg, 0);
    }
    PollData(s, transport, clock, reg, 0);
  }

  /**
   * The payload is all or nothing: either every one of the seven success keys
   * carries a value, or every one of the seven null keys is `None`.
   */
  lemma PayloadAllOrNothing(s: Sensor, transport: Transport, clock: Clock, reg: Registry)
    requires HasPlanKeys(s.modbusAddress) && reg.Valid()
    ensures var p := ReadOutcome(s, transport, clock, reg).data.payload;
      || (p.Keys == SuccessKeys && forall k :: k in p ==> p[k].Some?)
      || (p.Keys == NullKeys && forall k :: k in p ==> p[k] == None)
  {
    NullPayloadShape();
    if s.instrument.Some? {
      PollData(s, transport, clock, reg, 0);
      var c := FirstClean(transport, 0, s.maxRetries);
      if c != 0 {
        CleanReads(transport, c);
        DecodeFields(ReadsFrom(transport, c, 0).raws);
      }
    }
  }

  /**
   * The bus spacing within one poll: every attempt starts (entry reading plus
   * its wait) at least `preDelay` after the previous attempt's exit reading,
   * and the first at least `preDelay` after the port's earlier stamp.
   */
  lemma PollSpacing(s: Sensor, transport: Transport, clock: Clock, reg: Registry)
    requires s.instrument.Some? && HasPlanKeys(s.modbusAddress) && reg.Valid()
    ensures var w := Waits(ReadOutcome(s, transport, clock, reg).trace);
      && (0 < |w| ==> clock.enterAt(1) + w[0] >= reg.Last(PortOf(s)) + s.preDelay)
      && forall i :: 0 < i < |w| ==> clock.enterAt(i + 1) + w[i] >= clock.exitAt(i) + s.preDelay
  {
    AttemptWaits(s, transport, clock, reg, 0);
    EntryWaitsSpacing(s, clock, reg.Last(PortOf(s)), AttemptCount(transport, 0, s.maxRetries));
  }


  // ---------------------------------------------------------------------
  // Sensors as constructed
  // ---------------------------------------------------------------------

  /**
   * A construction that could not open the instrument is permanent: every
   * poll of that sensor returns the all-None reading with no bus traffic.
   */
  lemma ConstructionFailurePermanent(
    sensorAddress: int, port: string, baudrate: int, timeout: real, preDelay: real, name: string,
    transport: Transport, clock: Clock, reg: Registry)
    requires reg.Valid()
    ensures var s := NewSensor(sensorAddress, false, port, baudrate, timeout, preDelay, name);
      ReadOutcome(s, transport, clock, reg) == Outcome(Reading(name, "interlock", NullPayload()), [], reg)
  {
    var s := NewSensor(sensorAddress, false, port, baudrate, timeout, preDelay, name);
    NoInstrumentPoll(s, transport, clock, reg);
  }

  /** Three attempts are 1, 2 and 3; three half-second sleeps are three halves. */
  lemma ThreeAttempts()
    ensures Numbered(1, 3) == [1, 2, 3]
    ensures Repeat(0.5, 3) == [0.5, 0.5, 0.5]
  {
  }

  /**
   * A constructed sensor whose every attempt fails makes exactly three
   * attempts, numbered 1, 2 and 3, sleeps half a second after each, and
   * returns the all-None reading.
   */
  lemma ConstructedExhaustion(
    sensorAddress: int, port: string, baudrate: int, timeout: real, preDelay: real, name: string,
    transport: Transport, clock: Clock, reg: Registry)
    requires reg.Valid()
    requires !Clean(transport, 1) && !Clean(transport, 2) && !Clean(transport, 3)
    ensures var o := ReadOutcome(NewSensor(sensorAddress, true, port, baudrate, timeout, preDelay, name), transport, clock, reg);
      && Attempts(o.trace) == [1, 2, 3]
      && Sleeps(o.trace) == [0.5, 0.5, 0.5]
      && o.data == Reading(name, "interlock", NullPayload())
  {
    var s := NewSensor(sensorAddress, true, port, baudrate, timeout, preDelay, name);
    forall n | 1 <= n <= s.maxRetries
      ensures !Clean(transport, n)
    {
      assert n == 1 || n == 2 || n == 3;
    }
    Exhaustion(s, transport, clock, reg);
    ThreeAttempts();
  }


  /** The plan of the driver's own table, request by request. */
  lemma DriverPlan(slave: int, m: nat)
    requires m <= RegisterCount
    ensures HasPlanKeys(GetAddress())
    ensures Plan(GetAddress(), slave, m) == seq(m, k requires 0 <= k < m => Request(slave, PlanOffsets[k], 3, true))
  {
    ReadPlan(slave);
  }

  /**
   * Each attempt of a constructed sensor's poll reads, in order, offsets 0,
   * 2, 3, 4, 5, 6 and 8 of its slave with function code 3 and signed
   * decoding, stopping after the first read that fails.
   */
  lemma ConstructedReads(
    sensorAddress: int, port: string, baudrate: int, timeout: real, preDelay: real, name: string,
    transport: Transport, clock: Clock, reg: Registry, m: nat)
    requires reg.Valid()
    requires 0 < m <= LastAttempt(transport, 0, 3)
    ensures var o := ReadOutcome(NewSensor(sensorAddress, true, port, baudrate, timeout, preDelay, name), transport, clock, reg);
      var issued := Issued(ReadsFrom(transport, m, 0));
      ReadsOf(o.trace, m) == seq(issued, k requires 0 <= k < issued => Request(sensorAddress, PlanOffsets[k], 3, true))
  {
    var s := NewSensor(sensorAddress, true, port, baudrate, timeout, preDelay, name);
    AttemptReads(s, transport, clock, reg, 0, m);
    DriverPlan(sensorAddress, Issued(ReadsFrom(transport, m, 0)));
  }

}
