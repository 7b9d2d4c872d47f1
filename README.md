# ConnectionPool — a Dafny model of the MySQL connection pool

This project models `ConnectionPool`, the pool of reusable MySQL connections
in `CommonConnectionPool.cpp`, and proves properties of it.

The pool has an idle queue (`_connectionQue`, FIFO) and a live counter
(`_connectionCnt`). Four actors change them:
- the constructor, which loads `mysql.ini` and warms up `initSize` connections. It takes no lock: it runs before the producer and scanner threads start;
- the producer thread, which creates one connection whenever the queue runs empty below `maxSize`;
- callers, which take the head of the queue in `getConnection` and put it back at the tail through the `shared_ptr` deleter;
- the scanner thread, which closes connections idle for `maxIdleTime` seconds, from the head, and never goes below `initSize`.

The producer, the callers (in `getConnection` and in the deleter) and the scanner each hold the queue mutex while they change the queue or the counter.

Modules:
- `Wrappers` (`wrappers.dfy`): the `Option` type.
- `PoolConfig` (`config.dfy`): the `mysql.ini` loader.
  - `ParseLine` splits a line at its first `=` and cuts the value at the next newline.
  - `Atoi` models C's `atoi`.
  - `Assign` is the key dispatch; `Get` reads any one setting back.
  - `ApplyLines` is the loader's loop as a function; the method `LoadConfigFile` runs that loop imperatively.
- `CommonConnectionPool` (`pool.dfy`): the class `ConnectionPool`.
  - Each locked region of the source is one method, and the clock reading is an explicit `now` argument.
  - Connections are identities with an idle-start stamp (`Idle(id, since)`).
  - The set `checkedOut` holds the connections callers have.
  - `Valid()` is the invariant every method preserves:
    - `cnt == |queue| + |checkedOut|`;
    - no identity is queued twice, or is both queued and held;
    - stamps never decrease from head to tail;
    - `initSize <= cnt <= max(0, initSize, maxSize)`.

## Model

| member | source | states |
|---|---|---|
| PoolConfig.Find | CommonConnectionPool.cpp:27 | the position returned is the first occurrence at or after the start; None exactly when the character does not occur there |
| PoolConfig.ParseLine | CommonConnectionPool.cpp:26-36 | None exactly when the line has no `=`; otherwise the key is the text before the first `=` (so has no `=`), the value the text after it up to but not including the next newline, or to the end of the line when there is none |
| PoolConfig.ParseLineInverts | CommonConnectionPool.cpp:27-36 | every `key=value` line (key without `=`, value without newline, then a newline or nothing) splits back into exactly that key and value |
| PoolConfig.AtoiReadsDecimal | CommonConnectionPool.cpp:44 | `atoi` reads back every integer written in decimal (with `-` when negative), whatever non-digit text follows |
| PoolConfig.AtoiSkipsLeadingSpace | CommonConnectionPool.cpp:44 | white space before the number does not change what `atoi` returns |
| PoolConfig.Assign | CommonConnectionPool.cpp:38-73 | a recognised key sets its own field to the value (text, or `atoi` of it for the numeric keys) and leaves the other eight fields as they were; an unrecognised key changes nothing |
| PoolConfig.ApplyLine | CommonConnectionPool.cpp:26-73 | a line with no `=`, or with an unrecognised key, leaves the configuration unchanged; a recognised key writes only its own field |
| PoolConfig.LaterLineOverwrites | CommonConnectionPool.cpp:38-73 | of two lines with the same key, applying both gives what applying only the later one gives |
| PoolConfig.LastValue | CommonConnectionPool.cpp:22-74 | the value of a line naming the key after which no line names it; None exactly when no line names the key |
| PoolConfig.LastLineWins | CommonConnectionPool.cpp:22-74 | after all lines, each recognised field holds the value of the last line naming its key, or its starting value when no line does |
| PoolConfig.LoadConfigFile | CommonConnectionPool.cpp:13-76 | a missing file reports failure and leaves every field as it was; otherwise the loop applies the lines in order, giving `ApplyLines` of them |
| CommonConnectionPool.StalePrefixLen | CommonConnectionPool.cpp:179-192 | the length of the queue's stale head: every connection before it is idle at least the threshold, the one at it (if any) is not |
| CommonConnectionPool.StaleIsPrefix | CommonConnectionPool.cpp:190 | in an oldest-first queue a connection is stale if and only if it lies in the stale head, so a young head means no connection behind it is stale |
| CommonConnectionPool.ConnectionPool.WithinMaxSize | CommonConnectionPool.cpp:88-95 | in every valid state with `initSize <= maxSize` and `0 <= maxSize`, `initSize <= cnt <= maxSize` (a negative `initSize` creates no connection) |
| CommonConnectionPool.ConnectionPool.constructor | CommonConnectionPool.cpp:79-95 | a missing file creates no connection; otherwise the configuration is the loaded one and the queue holds `max(0, initSize)` fresh connections stamped now, with `cnt` equal to that number and none checked out |
| CommonConnectionPool.ConnectionPool.ProduceStep | CommonConnectionPool.cpp:111-128 | the state changes exactly when the queue is empty and `cnt < maxSize`; then one fresh connection stamped now is queued and `cnt` grows by one; the invariant, and so `cnt <= maxSize`, is kept |
| CommonConnectionPool.ConnectionPool.Acquire | CommonConnectionPool.cpp:136-166 | on a non-empty queue it returns the head, keeps the rest in order, marks the head checked out and leaves `cnt` alone; on an empty queue it times out with None and changes nothing |
| CommonConnectionPool.ConnectionPool.Release | CommonConnectionPool.cpp:155-161 | a held connection goes back to the tail stamped now and stops being held; `cnt` is unchanged and the invariant kept |
| CommonConnectionPool.ConnectionPool.ScanStep | CommonConnectionPool.cpp:178-192 | removes exactly a prefix of the queue, of length min(`cnt - initSize`, length of the stale head); every removed connection was idle at least `maxIdleTime*1000` ms; `cnt` drops by the number removed and stays at least `initSize`; if the scan stops above `initSize`, no connection left in the queue is stale |
| CommonConnectionPool.BorrowAndReturn | CommonConnectionPool.cpp:155-163 | taking a connection and dropping its handle at once puts that connection back exactly once, at the tail, stamped now; nothing else changes |
| CommonConnectionPool.EmptyFrontReachable | CommonConnectionPool.cpp:179-181 | with `initSize=0`, `maxSize=1`, one produced connection and one acquire, the scanner's loop condition as written holds while the queue is empty |

## Findings

| source | as written | input that shows it | evidently intended | confidence | as-written member | corrected member |
|---|---|---|---|---|---|---|
| CommonConnectionPool.cpp:179-181 | the scanner's loop tests only `_connectionCnt > _initSize`, then calls `_connectionQue.front()` | `mysql.ini` with `maxSize=1` (`initSize` left at 0): the producer creates one connection and a caller takes it. The scanner then wakes with `cnt` 1 > 0 and an empty queue, so `front()` on an empty `std::queue` is undefined behaviour | stop the scan when the queue is empty: every connection above `initSize` is in use | high (not executed) | CommonConnectionPool.EmptyFrontReachable | CommonConnectionPool.ConnectionPool.ScanStep |

## Left out

- Threads, the mutex, the condition variable, `detach` and `sleep_for` are not modelled.
  - Each locked region is one atomic method, so the model does not capture interleavings.
  - The scanner's sleep between wake-ups is not modelled; `ScanStep` is one wake-up.
- The outcome of `wait_for` is modelled only as what `Acquire` sees: a non-empty queue, or an empty one (a timeout).
  - A notification that brings no connection restarts the full wait in the source, so a caller can wait longer than `connectionTimeOut`. No timing is modelled, so `connectionTimeout` is loaded but never used.
- The `shared_ptr` deleter is modelled as the explicit method `Release`, whose precondition (the connection is held) stands for the deleter running once per handle.
- The singleton accessor `getConnectionPool`, `LOG` and main.cpp are not modelled; they hold no pool logic.
- The `Connection` class is not modelled: MySQL connect, update and query.
  - A connection is an identity, and `delete` of an evicted connection is its return in `evicted`.
  - The source ignores `connect`'s result (CommonConnectionPool.cpp:91, :121). A failed `connect` is neither retried nor skipped: the connection is still queued and counted, and the model does the same.
- The clock behind `refreshAliveTime` and `getAliveeTime` is an argument `now` in milliseconds that never runs backwards.
  - Warm-up stamps every connection with one reading.
- File I/O (`fopen`, `fgets`, `feof`) is not modelled; the loader takes the sequence of lines `fgets` returns.
  - `fgets` splits lines longer than 1023 characters, and the model does not.
  - C strings stop at an embedded NUL, and the model does not.
  - CommonConnectionPool.h is not part of this model. The fields are taken as `int` and `string`, starting at zero and empty (the pool is a static object).
- PoolConfig.AtoiReadsDecimal: `atoi` is modelled over unbounded integers; its undefined behaviour on values outside `int` is not modelled.
- CommonConnectionPool.ConnectionPool.ScanStep: the threshold `maxIdleTime * 1000` is computed without the 32-bit overflow the source has for `maxIdleTime` above 2147483.
