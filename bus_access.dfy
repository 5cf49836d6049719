/**
 * The RS-485 bus manager: a registry, keyed by port, of one lock and one
 * last-access timestamp per port, and the scoped access that waits out the
 * pre-delay on entry and stamps the port on exit.
 *
 * The registry is modelled sequentially: a lock is either held or free, a
 * second acquisition of a held lock (which would block) is excluded by the
 * callers, and every clock reading is a parameter.
 */
module BusAccess {

  /** Identity of one per-port lock object; two ports share a lock iff their ids are equal. */
  type LockId = nat

  /**
   * A snapshot of the manager's class-level tables: the port-to-lock table,
   * the port-to-timestamp table, the ports whose lock is currently held and
   * the id the next lock created will get.
   */
  datatype Registry = Registry(
    locks: map<string, LockId>,
    lastAccess: map<string, real>,
    held: set<string>,
    nextLock: LockId)
  {
    /** Both tables cover the same ports, only known ports are held, and every lock id is already issued. */
    predicate Valid() {
      && locks.Keys == lastAccess.Keys
      && held <= locks.Keys
      && (forall p :: p in locks ==> locks[p] < nextLock)
    }

    /** No two ports share a lock. */
    predicate DistinctLocks() {
      forall p, q :: p in locks && q in locks && p != q ==> locks[p] != locks[q]
    }

    /** The last-access time of a port, 0.0 for a port never seen (the `.get(port, 0.0)` lookup). */
    function Last(port: string): real {
      if port in lastAccess then lastAccess[port] else 0.0
    }

    /**
     * Create-if-absent: a new port gets a fresh lock and timestamp 0.0; a port
     * already present keeps its lock and timestamp (the registry is unchanged);
     * no other port's entry changes.
     */
    function Ensure(port: string): (r: Registry)
      requires Valid()
      ensures r.Valid()
      ensures port in r.locks && r.held == held
      ensures port in locks ==> r == this
      ensures port !in locks ==> r.lastAccess[port] == 0.0 && r.locks[port] !in locks.Values
      ensures forall q :: q != port ==> (q in r.locks <==> q in locks)
      ensures forall q :: q != port && q in locks ==> r.locks[q] == locks[q] && r.lastAccess[q] == lastAccess[q]
    {
      if port in locks then this
      else Registry(locks[port := nextLock], lastAccess[port := 0.0], held, nextLock + 1)
    }

    /** Taking a port's lock marks it held and changes nothing else. */
    function Acquire(port: string): (r: Registry)
      requires Valid() && port in locks
      ensures r.Valid()
      ensures port in r.held && r.held - {port} == held - {port}
      ensures r.locks == locks && r.lastAccess == lastAccess && r.nextLock == nextLock
    {
      this.(held := held + {port})
    }

    /**
     * Leaving a port's scope stamps exactly that port with the exit time and
     * frees its lock; every other port keeps its timestamp.
     */
    function Release(port: string, at: real): (r: Registry)
      requires Valid() && port in locks
      ensures r.Valid()
      ensures r.Last(port) == at
      ensures forall q :: q != port ==> r.Last(q) == Last(q)
      ensures port !in r.held && r.held == held - {port}
      ensures r.locks == locks && r.lastAccess.Keys == lastAccess.Keys && r.nextLock == nextLock
    {
      this.(lastAccess := lastAccess[port := at], held := held - {port})
    }

    /** The pre-delay wait a transaction entering at `tx.enterAt` sees on this registry. */
    function WaitFor(tx: Transaction): (w: real)
      requires Valid()
      ensures w == WaitTime(tx.preDelay, tx.enterAt, Last(tx.port))
    {
      WaitTime(tx.preDelay, tx.enterAt, Ensure(tx.port).Last(tx.port))
    }

    /**
     * The registry after one whole scoped access on `tx.port`: the port is
     * registered, stamped with the exit reading and not held.
     */
    function Transact(tx: Transaction): (r: Registry)
      requires Valid()
      ensures r.Valid()
      ensures r.Last(tx.port) == tx.exitAt
      ensures forall q :: q != tx.port ==> r.Last(q) == Last(q)
      ensures r.held == held - {tx.port}
    {
      var isNew := tx.port !in locks;
      Registry(
        if isNew then locks[tx.port := nextLock] else locks,
        lastAccess[tx.port := tx.exitAt],
        held - {tx.port},
        if isNew then nextLock + 1 else nextLock)
    }
  }

  /** Create-if-absent, enter and exit, one after another, are one transaction. */
  lemma ScopeIsTransact(reg: Registry, tx: Transaction)
    requires reg.Valid() && tx.port !in reg.held
    ensures reg.Ensure(tx.port).Acquire(tx.port).Release(tx.port, tx.exitAt) == reg.Transact(tx)
  {
  }

  /** Create-if-absent hands out a lock no other port has, so no two ports come to share one. */
  lemma EnsureKeepsDistinct(reg: Registry, port: string)
    requires reg.Valid() && reg.DistinctLocks()
    ensures reg.Ensure(port).DistinctLocks()
  {
    var r := reg.Ensure(port);
    forall p, q | p in r.locks && q in r.locks && p != q
      ensures r.locks[p] != r.locks[q]
    {
      if p == port && port !in reg.locks {
        assert reg.locks[q] in reg.locks.Values;
      } else if q == port && port !in reg.locks {
        assert reg.locks[p] in reg.locks.Values;
      }
    }
  }

  /** The registry before any port is used. */
  const EmptyRegistry := Registry(map[], map[], {}, 0)

  /**
   * The pre-delay wait on entry: `pre_delay - (now - last)` when positive,
   * otherwise none. It is the least non-negative wait after which at least
   * `preDelay` has passed since `last`.
   */
  function WaitTime(preDelay: real, now: real, last: real): (w: real)
    ensures w >= 0.0
    ensures now + w >= last + preDelay
    ensures w == 0.0 || now + w == last + preDelay
  {
    var wait := preDelay - (now - last);
    if wait > 0.0 then wait else 0.0
  }

  /**
   * One scoped access as a sequential transaction: which port, its pre-delay,
   * the clock reading taken on entry, and the clock reading taken on exit.
   */
  datatype Transaction = Transaction(port: string, preDelay: real, enterAt: real, exitAt: real)

  /** The registry after the first `j` transactions of `txs`, run one after another. */
  function After(reg: Registry, txs: seq<Transaction>, j: nat): (r: Registry)
    requires reg.Valid() && j <= |txs|
    ensures r.Valid()
  {
    if j == 0 then reg
    else After(reg, txs, j - 1).Transact(txs[j - 1])
  }

  /** A transaction stamps its own port with its exit reading and leaves every other port's timestamp alone. */
  lemma TransactLast(reg: Registry, tx: Transaction, port: string)
    requires reg.Valid()
    ensures reg.Transact(tx).Last(port) == if port == tx.port then tx.exitAt else reg.Last(port)
  {
  }

  /** The moment transaction `j` of a sequence starts: its entry reading plus the wait `WaitFor` gives it on the registry left by the earlier ones. */
  function StartOf(reg: Registry, txs: seq<Transaction>, j: nat): real
    requires reg.Valid() && j < |txs|
  {
    txs[j].enterAt + WaitTime(txs[j].preDelay, txs[j].enterAt, After(reg, txs, j).Last(txs[j].port))
  }

  /** Transactions on other ports leave a port's timestamp alone. */
  lemma {:induction false} OtherPortsKeepLast(reg: Registry, txs: seq<Transaction>, i: nat, j: nat, port: string)
    requires reg.Valid() && i <= j <= |txs|
    requires forall k :: i <= k < j ==> txs[k].port != port
    ensures After(reg, txs, j).Last(port) == After(reg, txs, i).Last(port)
    decreases j - i
  {
    if i != j {
      OtherPortsKeepLast(reg, txs, i, j - 1, port);
      StepLast(reg, txs, j - 1, port);
    }
  }

  /** Running transaction `j` changes no timestamp but that of its own port, which becomes its exit reading. */
  lemma StepLast(reg: Registry, txs: seq<Transaction>, j: nat, port: string)
    requires reg.Valid() && j < |txs|
    ensures After(reg, txs, j + 1).Last(port) == if port == txs[j].port then txs[j].exitAt else After(reg, txs, j).Last(port)
  {
    TransactLast(After(reg, txs, j), txs[j], port);
  }

  /**
   * Minimum spacing: when transaction `j` is the next one on the port of
   * transaction `i`, it starts no earlier than `i`'s exit time plus `j`'s
   * pre-delay, whatever happened on other ports in between.
   */
  lemma MinimumSpacing(reg: Registry, txs: seq<Transaction>, i: nat, j: nat)
    requires reg.Valid() && i < j < |txs|
    requires txs[i].port == txs[j].port
    requires forall k :: i < k < j ==> txs[k].port != txs[i].port
    ensures StartOf(reg, txs, j) >= txs[i].exitAt + txs[j].preDelay
  {
    var port := txs[i].port;
    OtherPortsKeepLast(reg, txs, i + 1, j, port);
    StepLast(reg, txs, i, port);
  }

  /** The manager's tables as an object that scoped accesses update in place. */
  class RS485BusManager {
    var locks: map<string, LockId>
    var lastAccess: map<string, real>
    var held: set<string>
    var nextLock: LockId

    /** The tables as a value. */
    function State(): Registry
      reads this
    {
      Registry(locks, lastAccess, held, nextLock)
    }

    ghost predicate Valid()
      reads this
    {
      State().Valid() && State().DistinctLocks()
    }

    /** No port is registered yet. */
    constructor ()
      ensures Valid() && State() == EmptyRegistry
    {
      locks, lastAccess, held, nextLock := map[], map[], {}, 0;
    }

    /** Looks up the port's lock, creating it (with timestamp 0.0) on first use. */
    method EnsurePort(port: string) returns (lock: LockId)
      requires Valid()
      modifies this
      ensures Valid() && State() == old(State()).Ensure(port)
      ensures port in locks && lock == locks[port]
      ensures port in old(locks) ==> lock == old(locks)[port]
    {
      EnsureKeepsDistinct(State(), port);
      if port !in locks {
        locks := locks[port := nextLock];
        lastAccess := lastAccess[port := 0.0];
        nextLock := nextLock + 1;
      }
      lock := locks[port];
    }

    /** Registers the port and hands back the scope object for one transaction on it. */
    method Access(port: string, preDelay: real := 0.03) returns (ctx: Ctx)
      requires Valid()
      modifies this
      ensures Valid() && State() == old(State()).Ensure(port)
      ensures ctx.port == port && ctx.preDelay == preDelay
      ensures port in locks && ctx.lock == locks[port]
    {
      var lock := EnsurePort(port);
      ctx := Ctx(port, preDelay, lock);
    }

    /**
     * Entering the scope: takes the port's lock, reads the clock (`now`) and
     * returns the wait slept before the transaction starts.
     */
    method Enter(ctx: Ctx, now: real) returns (wait: real)
      requires Valid() && ctx.port in locks && ctx.lock == locks[ctx.port]
      requires ctx.port !in held
      modifies this
      ensures Valid() && State() == old(State()).Acquire(ctx.port)
      ensures wait == WaitTime(ctx.preDelay, now, old(State()).Last(ctx.port))
      ensures now + wait >= old(State()).Last(ctx.port) + ctx.preDelay && now + wait >= now
    {
      held := held + {ctx.port};
      var last := State().Last(ctx.port);
      wait := ctx.preDelay - (now - last);
      if wait <= 0.0 {
        wait := 0.0;
      }
    }

    /**
     * Leaving the scope, on success or failure alike: stamps the port with the
     * clock reading `at`, frees its lock, and returns false so that a failure
     * raised inside the scope is not suppressed.
     */
    method Exit(ctx: Ctx, at: real) returns (suppress: bool)
      requires Valid() && ctx.port in locks && ctx.lock == locks[ctx.port]
      requires ctx.port in held
      modifies this
      ensures Valid() && State() == old(State()).Release(ctx.port, at)
      ensures !suppress
    {
      lastAccess := lastAccess[ctx.port := at];
      held := held - {ctx.port};
      suppress := false;
    }
  }

  /** The scope object of one access: the port, its pre-delay and the lock it captured. */
  datatype Ctx = Ctx(port: string, preDelay: real, lock: LockId)
}
