/** The connection pool: a FIFO queue of idle connections and a live
    counter, changed by warm-up, by the producer, by callers acquiring and
    releasing, and by the idle scanner. Each region the source runs under
    the queue mutex is one method here; the clock is an argument. */
module CommonConnectionPool {
  import opened Wrappers
  import opened PoolConfig

  /** An idle connection: which one it is, and the clock reading (in
      milliseconds) at which it last became idle. */
  datatype Idle = Idle(id: nat, since: nat)

  function Max(a: int, b: int): int {
    if a < b then b else a
  }

  function Min(a: int, b: int): int {
    if a < b then a else b
  }

  /** A connection the scanner closes: idle for at least `threshold` ms. */
  predicate Stale(c: Idle, now: nat, threshold: int) {
    now - c.since >= threshold
  }

  /** Idle-start times never decrease from head to tail. */
  predicate OldestFirst(q: seq<Idle>) {
    forall i, j :: 0 <= i < j < |q| ==> q[i].since <= q[j].since
  }

  /** The identities of the connections in a queue. */
  function Ids(q: seq<Idle>): set<nat> {
    set i | 0 <= i < |q| :: q[i].id
  }

  /** How many connections at the head of `q` are stale. */
  function StalePrefixLen(q: seq<Idle>, now: nat, threshold: int): (n: nat)
    ensures n <= |q|
    ensures forall i :: 0 <= i < n ==> Stale(q[i], now, threshold)
    ensures n < |q| ==> !Stale(q[n], now, threshold)
  {
    if q == [] || !Stale(q[0], now, threshold) then 0
    else 1 + StalePrefixLen(q[1..], now, threshold)
  }

  /** In a queue kept oldest-first the stale connections are exactly its
      stale prefix, so once the head is too young to close, so is every
      connection behind it. */
  lemma StaleIsPrefix(q: seq<Idle>, now: nat, threshold: int)
    requires OldestFirst(q)
    ensures forall i :: 0 <= i < |q| ==>
      (Stale(q[i], now, threshold) <==> i < StalePrefixLen(q, now, threshold))
  {
  }

  /** What holds of the idle queue beside the connections callers hold:
      no connection is queued twice or both queued and held, every
      identity was already handed out, every stamp was taken no later than
      the latest clock reading, and the queue is oldest-first. */
  ghost predicate Wellformed(q: seq<Idle>, held: set<nat>, nextId: nat, clock: nat) {
    (forall i, j :: 0 <= i < j < |q| ==> q[i].id != q[j].id) &&
    (forall i :: 0 <= i < |q| ==> q[i].id !in held && q[i].id < nextId && q[i].since <= clock) &&
    (forall id :: id in held ==> id < nextId) &&
    OldestFirst(q)
  }

  /** Closing connections at the head of the queue keeps it well-formed,
      whatever time it is now. */
  lemma WellformedSuffix(q: seq<Idle>, k: nat, held: set<nat>, nextId: nat, clock: nat, now: nat)
    requires Wellformed(q, held, nextId, clock) && k <= |q| && clock <= now
    ensures Wellformed(q[k..], held, nextId, now)
  {
  }

  class ConnectionPool {
    /** The settings `loadConfigFile` produced; fixed once constructed. */
    const config: Config
    /** Whether the configuration file was found, so that warm-up ran and
        the producer and scanner threads were started. */
    const started: bool

    /** `_connectionQue`: the idle connections, head first. */
    var queue: seq<Idle>
    /** The connections callers hold; the source keeps no such list, but a
        connection it hands out is exactly one that left the queue and has
        not come back. */
    var checkedOut: set<nat>
    /** `_connectionCnt`: the number of connections the pool owns. */
    var cnt: int
    /** The identity the next `new Connection()` gets. */
    var nextId: nat
    /** The latest clock reading any step has seen; the clock never runs
        backwards. */
    ghost var clock: nat

    /** The most connections the pool ever owns: `maxSize`, unless warm-up
        alone created more because `initSize` exceeds it. */
    function Ceiling(): int {
      Max(0, Max(config.initSize, config.maxSize))
    }

    /** The milliseconds of idleness after which the scanner closes a
        connection: `_maxIdleTime * 1000`. */
    function IdleThreshold(): int {
      config.maxIdleTime * 1000
    }

    ghost predicate Valid()
      reads this
    {
      Wellformed(queue, checkedOut, nextId, clock) &&
      // the counter counts exactly the idle and the held connections
      cnt == |queue| + |checkedOut| &&
      config.initSize <= cnt <= Ceiling()
    }

    /** With `initSize <= maxSize`, which the source never checks, and a
        `maxSize` that is not negative, the pool never owns more than
        `maxSize` connections; a negative `initSize` creates none. */
    lemma WithinMaxSize()
      requires Valid()
      requires config.initSize <= config.maxSize && 0 <= config.maxSize
      ensures config.initSize <= cnt <= config.maxSize
    {
    }

    /** The constructor: load the configuration (None is a missing file,
        after which nothing else happens), then warm up by creating
        `initSize` connections, each stamped idle and queued. */
    constructor (file: Option<seq<string>>, now: nat)
      ensures Valid()
      ensures started <==> file.Some?
      ensures config == if file.Some? then ApplyLines(Default, file.value) else Default
      ensures |queue| == if started then Max(0, config.initSize) else 0
      ensures forall i :: 0 <= i < |queue| ==> queue[i].since == now
      ensures checkedOut == {} && cnt == |queue|
      ensures clock == now
    {
      var loaded, loadedConfig := LoadConfigFile(file, Default);
      config := loadedConfig;
      started := loaded;
      queue := [];
      checkedOut := {};
      cnt := 0;
      nextId := 0;
      clock := now;
      new;
      if loaded {
        var i := 0;
        while i < config.initSize
          invariant 0 <= i <= Max(0, config.initSize)
          invariant |queue| == cnt == nextId == i
          invariant forall k :: 0 <= k < |queue| ==> queue[k] == Idle(k, now)
          invariant checkedOut == {} && clock == now
        {
          queue := queue + [Idle(nextId, now)];
          cnt := cnt + 1;
          nextId := nextId + 1;
          i := i + 1;
        }
      }
    }

    /** One round of the producer once the queue has run empty: below
        `maxSize` it creates one connection, stamps it idle and queues it.
        While the queue is not empty the producer is still waiting, and
        nothing changes. */
    method ProduceStep(now: nat) returns (produced: bool)
      requires Valid() && started && clock <= now
      modifies this
      ensures Valid()
      ensures produced <==> old(queue) == [] && old(cnt) < config.maxSize
      ensures produced ==>
        queue == [Idle(old(nextId), now)] && cnt == old(cnt) + 1 && nextId == old(nextId) + 1
      ensures !produced ==>
        queue == old(queue) && cnt == old(cnt) && nextId == old(nextId)
      ensures checkedOut == old(checkedOut) && clock == now
    {
      clock := now;
      produced := false;
      if queue == [] && cnt < config.maxSize {
        queue := queue + [Idle(nextId, now)];
        cnt := cnt + 1;
        nextId := nextId + 1;
        produced := true;
      }
    }

    /** `getConnection`: hands out the head of the queue, or, when the queue
        is still empty once the wait times out, None (the source's null
        pointer) with nothing changed. */
    method Acquire() returns (conn: Option<nat>)
      requires Valid()
      modifies this
      ensures Valid()
      ensures conn.None? <==> old(queue) == []
      ensures conn.Some? ==>
        conn.value == old(queue)[0].id && queue == old(queue)[1..] &&
        checkedOut == old(checkedOut) + {conn.value}
      ensures conn.None? ==> queue == old(queue) && checkedOut == old(checkedOut)
      ensures cnt == old(cnt) && nextId == old(nextId) && clock == old(clock)
    {
      if queue == [] {
        return None;
      }
      var head := queue[0];
      assert head.id !in Ids(queue[1..]);
      queue := queue[1..];
      checkedOut := checkedOut + {head.id};
      conn := Some(head.id);
    }

    /** The handle's deleter: the connection a caller is done with goes back
        to the tail of the queue, stamped idle now; the counter is not
        touched, since the pool still owns it. */
    method Release(id: nat, now: nat)
      requires Valid() && id in checkedOut && clock <= now
      modifies this
      ensures Valid()
      ensures queue == old(queue) + [Idle(id, now)]
      ensures checkedOut == old(checkedOut) - {id}
      ensures cnt == old(cnt) && nextId == old(nextId) && clock == now
    {
      clock := now;
      queue := queue + [Idle(id, now)];
      checkedOut := checkedOut - {id};
    }

    /** The scanner's loop condition as the source writes it: only the
        counter is tested before the head of the queue is read. */
    predicate ScanLoopEntersAsWritten()
      reads this
    {
      cnt > config.initSize
    }

    /** One wake-up of the scanner: while the pool owns more than
        `initSize` connections and one is queued, close the head if it has
        been idle for `maxIdleTime` seconds, and stop at the first that has
        not. The test for a non-empty queue is not in the source. */
    method ScanStep(now: nat) returns (evicted: seq<Idle>)
      requires Valid() && started && clock <= now
      modifies this
      ensures Valid()
      ensures |evicted| ==
        Min(old(cnt) - config.initSize, StalePrefixLen(old(queue), now, IdleThreshold()))
      ensures evicted == old(queue)[..|evicted|] && queue == old(queue)[|evicted|..]
      ensures forall i :: 0 <= i < |evicted| ==> Stale(evicted[i], now, IdleThreshold())
      ensures cnt == old(cnt) - |evicted|
      ensures cnt > config.initSize ==>
        forall i :: 0 <= i < |queue| ==> !Stale(queue[i], now, IdleThreshold())
      ensures checkedOut == old(checkedOut) && nextId == old(nextId) && clock == now
    {
      ghost var before, earlier := queue, clock;
      clock := now;
      evicted := [];
      ghost var threshold := IdleThreshold();
      ghost var stale := StalePrefixLen(before, now, threshold);
      while cnt > config.initSize && queue != []
        invariant |evicted| <= stale
        invariant evicted == before[..|evicted|] && queue == before[|evicted|..]
        invariant config.initSize <= cnt == old(cnt) - |evicted|
        invariant checkedOut == old(checkedOut) && nextId == old(nextId) && clock == now
        decreases |queue|
      {
        var head := queue[0];
        if now - head.since >= IdleThreshold() {
          queue := queue[1..];
          cnt := cnt - 1;
          evicted := evicted + [head];
        } else {
          StaleIsPrefix(before, now, threshold);
          break;
        }
      }
      WellformedSuffix(before, |evicted|, checkedOut, nextId, earlier, now);
    }
  }

  /** Acquiring and dropping the handle straight away: the connection
      comes back to the queue once, behind the others, stamped now. */
  method BorrowAndReturn(pool: ConnectionPool, now: nat) returns (conn: Option<nat>)
    requires pool.Valid() && pool.clock <= now
    modifies pool
    ensures pool.Valid()
    ensures conn.None? <==> old(pool.queue) == []
    ensures conn.Some? ==>
      conn.value == old(pool.queue)[0].id &&
      pool.queue == old(pool.queue)[1..] + [Idle(conn.value, now)]
    ensures conn.None? ==> pool.queue == old(pool.queue)
    ensures pool.checkedOut == old(pool.checkedOut) && pool.cnt == old(pool.cnt)
  {
    conn := pool.Acquire();
    if conn.Some? {
      pool.Release(conn.value, now);
    }
  }

  /** A file holding the single line `maxSize=1` leaves every setting at
      its default except `maxSize`, which becomes 1. */
  lemma OneLineFile()
    ensures ApplyLines(Default, ["maxSize=1\n"]) == Default.(maxSize := 1)
  {
    var lines := ["maxSize=1\n"];
    assert lines[..0] == [];
    assert lines[0] == "maxSize" + "=" + "1" + "\n";
    ParseLineInverts("maxSize", "1", "\n");
    AtoiReadsDecimal(1, "");
    assert Decimal(1) + "" == "1";
  }

  /** A pool configured with `initSize=0` (by default) and `maxSize=1`
      gets, once the producer creates its one connection and a caller
      takes it, to a state in which the scanner's loop as written is
      entered with an empty queue, and reads the front of it. */
  method EmptyFrontReachable() returns (pool: ConnectionPool)
    ensures pool.Valid() && pool.started
    ensures pool.ScanLoopEntersAsWritten() && pool.queue == []
  {
    OneLineFile();
    pool := new ConnectionPool(Some(["maxSize=1\n"]), 0);
    var produced := pool.ProduceStep(0);
    var conn := pool.Acquire();
  }
}
