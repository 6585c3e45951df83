/** Starting, feeding and stopping the auction server's worker pool, and the connections its
    workers borrow. A worker is owned by the pool alone, so it is a value in the pool's lists. */
module WorkerPool {
  import opened Machine
  import opened Routing

  type Conn = int

  // ---------------------------------------------------------------------------------------
  //  The connection pool
  // ---------------------------------------------------------------------------------------

  /** `abandoned` are the borrowed connections whose last user dropped them without returning. */
  class ConnectionPool {
    var pool: seq<Conn>
    var borrowed: set<Conn>
    var abandoned: set<Conn>
    var nextConn: Conn

    predicate Valid()
      reads this
    {
      && abandoned <= borrowed
      && (forall i, j :: 0 <= i < j < |pool| ==> pool[i] != pool[j])
      && (forall c <- pool :: c !in borrowed && c < nextConn)
      && (forall c <- borrowed :: c < nextConn)
    }

    /** Every connection a user still holds. */
    function Held(): set<Conn>
      reads this
    {
      borrowed - abandoned
    }

    /** What is free now was free in an earlier state, and new connections are new. */
    predicate NeverSeen(free: seq<Conn>, next: Conn)
      reads this
    {
      next <= nextConn && forall c <- pool :: c in free
    }

    constructor (size: nat)
      ensures Valid() && |pool| == size && borrowed == {}
    {
      pool := seq(size, i => i);
      borrowed, abandoned, nextConn := {}, {}, size;
    }

    /** A free connection, or a new one for an abandoned one; None when there is neither or the
        new one cannot be made. */
    method Borrow(canCreate: bool) returns (c: Option<Conn>)
      requires Valid()
      modifies this
      ensures Valid()
      ensures c.None? ==> pool == old(pool) && borrowed == old(borrowed) && abandoned == old(abandoned)
      ensures c.None? <==> old(pool) == [] && (old(abandoned) == {} || !canCreate)
      ensures c.Some? ==> c.value !in old(borrowed) && Held() == old(Held()) + {c.value} && abandoned <= old(abandoned)
      ensures NeverSeen(old(pool), old(nextConn)) && (c.Some? ==> c.value in old(pool) || old(nextConn) <= c.value)
    {
      if pool == [] {
        if abandoned == {} || !canCreate { return None; }
        EmptyOrInhabited(abandoned);
        var lost :| lost in abandoned;
        var made := nextConn;
        nextConn := nextConn + 1;
        borrowed := borrowed - {lost} + {made};
        abandoned := abandoned - {lost};
        return Some(made);
      }
      var conn := pool[0];
      pool := pool[1..];
      borrowed := borrowed + {conn};
      return Some(conn);
    }

    /** Returning what is not borrowed has no effect. */
    method Unborrow(c: Conn)
      requires Valid() && c !in abandoned
      modifies this
      ensures Valid()
      ensures borrowed == old(borrowed) - {c} && abandoned == old(abandoned) && Held() == old(Held()) - {c}
      ensures pool == if c in old(borrowed) then old(pool) + [c] else old(pool)
    {
      if c in borrowed {
        pool := pool + [c];
        borrowed := borrowed - {c};
      }
    }

    /** The last reference goes away without the connection being returned. */
    method Abandon(c: Conn)
      requires Valid() && c in borrowed
      modifies this
      ensures Valid() && pool == old(pool) && borrowed == old(borrowed) && abandoned == old(abandoned) + {c}
      ensures nextConn == old(nextConn)
    {
      abandoned := abandoned + {c};
    }
  }

  // ---------------------------------------------------------------------------------------
  //  The worker pool
  // ---------------------------------------------------------------------------------------

  /** One io_context with its guard, its connection and its thread; `ran` is what the thread has
      executed. A task that throws is caught, so it runs like any other. */
  datatype Worker<Task> = Worker(guard: bool, conn: Conn, queue: seq<Task>, ran: seq<Task>, joined: bool)

  datatype Failure = Fine | NoConnection | NoThread

  function ConnsOf<Task>(workers: seq<Worker<Task>>): (r: seq<Conn>)
    ensures |r| == |workers| && forall i :: 0 <= i < |r| ==> r[i] == workers[i].conn
  {
    if workers == [] then [] else [workers[0].conn] + ConnsOf(workers[1..])
  }

  predicate Distinct(conns: seq<Conn>) {
    forall i, j :: 0 <= i < j < |conns| ==> conns[i] != conns[j]
  }

  function Elements(conns: seq<Conn>): set<Conn> {
    set c <- conns
  }

  /** A worker whose guard was let go and whose thread has been joined: the queue ran dry first. */
  function Joined<Task>(w: Worker<Task>): Worker<Task> {
    w.(guard := false, queue := [], ran := w.ran + w.queue, joined := true)
  }

  // ---------------------------------------------------------------------------------------
  //  What was posted
  // ---------------------------------------------------------------------------------------

  datatype Posted<+Task> = Posted(key: uint64, task: Task)

  function KeyOf<Task>(p: Posted<Task>): uint64 { p.key }

  function Tasks<Task>(posted: seq<Posted<Task>>): seq<Task> {
    if posted == [] then [] else [posted[0].task] + Tasks(posted[1..])
  }

  /** The tasks among `posted` that worker `w` of `n` has to run, in order. */
  function TasksFor<Task>(posted: seq<Posted<Task>>, w: nat, n: nat): seq<Task>
    requires n > 0
  {
    Tasks(Routed(posted, KeyOf, w, n))
  }

  /** What each worker ran and has queued is what was posted to it. */
  predicate Dealt<Task(==)>(workers: seq<Worker<Task>>, posted: seq<Posted<Task>>) {
    && (workers == [] ==> posted == [])
    && forall w :: 0 <= w < |workers| ==> workers[w].ran + workers[w].queue == TasksFor(posted, w, |workers|)
  }

  lemma {:induction false} TasksAppend<Task>(a: seq<Posted<Task>>, p: Posted<Task>)
    ensures Tasks(a + [p]) == Tasks(a) + [p.task]
  {
    if a == [] {
      assert [p][1..] == [] && a + [p] == [p];
    } else {
      assert (a + [p])[1..] == a[1..] + [p];
      TasksAppend(a[1..], p);
    }
  }

  lemma PostDeals<Task>(workers: seq<Worker<Task>>, posted: seq<Posted<Task>>, key: uint64, task: Task)
    requires workers != [] && Dealt(workers, posted)
    ensures Dealt(Queued(workers, key % |workers|, task), posted + [Posted(key, task)])
  {
    var n, p := |workers|, Posted(key, task);
    var after := Queued(workers, key % n, task);
    forall w | 0 <= w < n ensures after[w].ran + after[w].queue == TasksFor(posted + [p], w, n) {
      RoutedAppend(posted, KeyOf, p, w, n);
      TasksAppend(Routed(posted, KeyOf, w, n), p);
      assert Routed(posted, KeyOf, w, n) + [] == Routed(posted, KeyOf, w, n);
      assert workers[w].ran + (workers[w].queue + [task]) == workers[w].ran + workers[w].queue + [task];
    }
  }

  /** Before anything is posted, workers come with nothing to do. */
  lemma SpawnDeals<Task>(workers: seq<Worker<Task>>, worker: Worker<Task>)
    requires Dealt(workers, []) && worker.queue == worker.ran == []
    ensures Dealt(workers + [worker], [])
  {
  }

  /** A newly borrowed connection joins those of the workers. */
  lemma Adopt(conns: seq<Conn>, c: Conn, held: set<Conn>)
    requires Distinct(conns) && Elements(conns) <= held && c !in held
    ensures Distinct(conns + [c]) && Elements(conns + [c]) <= held + {c}
    ensures held + {c} - Elements(conns + [c]) == held - Elements(conns)
  {
    assert Elements(conns + [c]) == Elements(conns) + {c};
  }

  lemma NothingHeld<Task>()
    ensures ConnsOf<Task>([]) == [] && Distinct([]) && Elements([]) == {} && Dealt<Task>([], [])
  {
  }

  /** Workers that have run all that was posted to them, in order. */
  predicate Finished<Task(==)>(ended: seq<Worker<Task>>, posted: seq<Posted<Task>>) {
    forall w :: 0 <= w < |ended| ==> ended[w].queue == [] && ended[w].ran == TasksFor(posted, w, |ended|)
  }

  lemma JoinedHaveRun<Task>(workers: seq<Worker<Task>>, posted: seq<Posted<Task>>)
    requires Dealt(workers, posted)
    ensures Finished(JoinedAll(workers), posted)
  {
    hide TasksFor;
    hide JoinedAll;
  }

  /** The readers' connections are distinct from the writers'. */
  lemma Split(a: seq<Conn>, b: seq<Conn>, held: set<Conn>)
    requires Distinct(a + b) && Elements(a + b) <= held
    ensures Distinct(a) && Distinct(b) && Elements(a) <= held && Elements(b) <= held - Elements(a)
    ensures held - Elements(a) - Elements(b) == held - Elements(a + b)
  {
    forall i, j | 0 <= i < j < |a| ensures a[i] != a[j] { assert (a + b)[i] == a[i] && (a + b)[j] == a[j]; }
    forall i, j | 0 <= i < j < |b| ensures b[i] != b[j] { assert (a + b)[|a| + i] == b[i] && (a + b)[|a| + j] == b[j]; }
    forall c | c in b ensures c in held - Elements(a) {
      var j :| 0 <= j < |b| && b[j] == c;
      assert (a + b)[|a| + j] == c && c in a + b;
      assert forall i :: 0 <= i < |a| ==> (a + b)[i] == a[i];
    }
    assert Elements(a + b) == Elements(a) + Elements(b);
  }

  lemma ReturnOne(conns: seq<Conn>, i: nat, held: set<Conn>)
    requires i < |conns| && Distinct(conns) && Elements(conns) <= held
    ensures conns[i] in held - Elements(conns[..i])
    ensures held - Elements(conns[..i]) - {conns[i]} == held - Elements(conns[..i + 1])
    ensures conns[..i] + [conns[i]] == conns[..i + 1]
  {
    assert conns[..i + 1] == conns[..i] + [conns[i]];
    assert Elements(conns[..i + 1]) == Elements(conns[..i]) + {conns[i]};
  }

  lemma RunDeals<Task>(workers: seq<Worker<Task>>, posted: seq<Posted<Task>>, w: nat)
    requires w < |workers| && workers[w].queue != [] && Dealt(workers, posted)
    ensures Dealt(workers[w := Ran(workers[w])], posted)
    ensures ConnsOf(workers[w := Ran(workers[w])]) == ConnsOf(workers)
  {
    var worker := workers[w];
    assert worker.ran + [worker.queue[0]] + worker.queue[1..] == worker.ran + worker.queue;
  }

  function Ran<Task>(w: Worker<Task>): Worker<Task>
    requires w.queue != []
  {
    w.(queue := w.queue[1..], ran := w.ran + [w.queue[0]])
  }

  class AuctionWorkerPool<Task(==)> {
    var readers: seq<Worker<Task>>
    var writers: seq<Worker<Task>>
    var readRoundRobin: uint64
    const connections: ConnectionPool
    /** What was posted since the start, a read with its turn, a write with its key. */
    ghost var readPosts: seq<Posted<Task>>
    ghost var writePosts: seq<Posted<Task>>

    function Conns(): seq<Conn>
      reads this
    {
      ConnsOf(readers) + ConnsOf(writers)
    }

    /** Each worker holds a connection of its own. */
    ghost predicate Valid()
      reads this, connections
    {
      && connections.Valid()
      && Distinct(Conns())
      && Elements(Conns()) <= connections.Held()
      && Dealt(readers, readPosts) && Dealt(writers, writePosts)
    }

    constructor (connections: ConnectionPool)
      requires connections.Valid()
      ensures Valid() && this.connections == connections && readers == writers == []
    {
      this.connections := connections;
      readers, writers, readRoundRobin := [], [], 0;
      readPosts, writePosts := [], [];
    }

    /** Borrows a connection and starts a thread on it. When the thread cannot be started, the
        half-made worker is destroyed with the connection inside. */
    method Spawn(canCreate: bool, threadStarts: bool) returns (failure: Failure, worker: Option<Worker<Task>>)
      requires Valid()
      modifies connections
      ensures connections.Valid()
      ensures failure.Fine? <==> worker.Some?
      ensures failure.NoThread? ==> !threadStarts
      ensures worker.Some? ==>
        && worker.value == Worker(true, worker.value.conn, [], [], false)
        && worker.value.conn !in old(connections.Held())
        && connections.Held() == old(connections.Held()) + {worker.value.conn}
      ensures worker.None? ==> connections.Held() == old(connections.Held())
      ensures !failure.NoThread? ==> connections.abandoned <= old(connections.abandoned)
      ensures failure.NoThread? ==>
        exists c :: c in connections.abandoned && (c in old(connections.pool) || old(connections.nextConn) <= c)
      ensures connections.NeverSeen(old(connections.pool), old(connections.nextConn))
    {
      var conn := connections.Borrow(canCreate);
      if conn.None? { return NoConnection, None; }
      if !threadStarts {
        connections.Abandon(conn.value);
        return NoThread, None;
      }
      return Fine, Some(Worker(true, conn.value, [], [], false));
    }

    /** What spawning does to the books: the workers' connections are all that is newly held,
        and a connection nobody will return appears exactly when a thread could not be started. */
    twostate predicate Spawned(failure: Failure)
      reads this, connections
    {
      && connections.Held() - Elements(Conns()) == old(connections.Held() - Elements(Conns()))
      && (!failure.NoThread? ==> connections.abandoned <= old(connections.abandoned))
      && (failure.NoThread? ==>
            exists c :: c in connections.abandoned && (c in old(connections.pool) || old(connections.nextConn) <= c))
      && connections.NeverSeen(old(connections.pool), old(connections.nextConn))
    }

    method SpawnReaders(count: nat, canCreate: nat -> bool, threadStarts: nat -> bool) returns (failure: Failure)
      requires Valid() && readers == [] && writers == []
      modifies this, connections
      ensures Valid() && writers == [] && writePosts == [] && (failure.Fine? ==> |readers| == count) && Spawned(failure)
    {
      assert Dealt(readers, readPosts) && Dealt(writers, writePosts);
      hide Dealt;
      hide Distinct;
      hide Elements;
      hide ConnsOf;
      while |readers| < count
        invariant Valid() && writers == [] && readPosts == writePosts == [] && |readers| <= count && Spawned(Fine)
      {
        ghost var conns, held := Conns(), connections.Held();
        var problem, worker := Spawn(canCreate(|readers|), threadStarts(|readers|));
        if worker.None? { return problem; }
        Adopt(conns, worker.value.conn, held);
        Added(readers, worker.value, writers);
        SpawnDeals(readers, worker.value);
        readers := readers + [worker.value];
      }
      return Fine;
    }

    method SpawnWriters(count: nat, canCreate: nat -> bool, threadStarts: nat -> bool) returns (failure: Failure)
      requires Valid() && writers == []
      modifies this, connections
      ensures Valid() && readers == old(readers) && (failure.Fine? ==> |writers| == count) && Spawned(failure)
    {
      assert Dealt(readers, readPosts) && Dealt(writers, writePosts);
      hide Dealt;
      hide Distinct;
      hide Elements;
      hide ConnsOf;
      while |writers| < count
        invariant Valid() && readers == old(readers) && writePosts == [] && |writers| <= count && Spawned(Fine)
      {
        var spawned := |readers| + |writers|;
        ghost var conns, held := Conns(), connections.Held();
        var problem, worker := Spawn(canCreate(spawned), threadStarts(spawned));
        if worker.None? { return problem; }
        Adopt(conns, worker.value.conn, held);
        AddedLast(readers, writers, worker.value);
        SpawnDeals(writers, worker.value);
        writers := writers + [worker.value];
      }
      return Fine;
    }

    /** Starts the workers, once. A failure part-way leaves the workers spawned so far. */
    method Start(readWorkers: nat, writeWorkers: nat, canCreate: nat -> bool, threadStarts: nat -> bool)
      returns (failure: Failure)
      requires Valid()
      modifies this, connections
      ensures Valid()
      ensures old(readers != [] || writers != []) ==>
        failure.Fine? && readers == old(readers) && writers == old(writers)
      ensures old(readers == [] && writers == []) && failure.Fine? ==>
        && |readers| == (if readWorkers == 0 then 1 else readWorkers)
        && |writers| == (if writeWorkers == 0 then 1 else writeWorkers)
      ensures connections.Held() - Elements(Conns()) == old(connections.Held() - Elements(Conns()))
      ensures failure.NoThread? <==> !(connections.abandoned <= old(connections.abandoned))
    {
      if readers != [] || writers != [] { return Fine; }
      var readCount := if readWorkers == 0 then 1 else readWorkers;
      var writeCount := if writeWorkers == 0 then 1 else writeWorkers;
      failure := SpawnReaders(readCount, canCreate, threadStarts);
      if failure.Fine? {
        failure := SpawnWriters(writeCount, canCreate, threadStarts);
      }
    }

    /** Posts to the readers in turn; dropped when there are none. */
    method PostRead(task: Task)
      requires Valid()
      modifies this
      ensures Valid() && writers == old(writers) && writePosts == old(writePosts) && |readers| == old(|readers|)
      ensures readers == [] ==> readRoundRobin == old(readRoundRobin)
      ensures readers != [] ==>
        && readRoundRobin == (old(readRoundRobin) + 1) % TWO_64
        && readers == Queued(old(readers), old(readRoundRobin) % |readers|, task)
        && readPosts == old(readPosts) + [Posted(old(readRoundRobin), task)]
    {
      hide Dealt;
      if readers == [] { return; }
      var index := readRoundRobin % |readers|;
      PostDeals(readers, readPosts, readRoundRobin, task);
      readPosts := readPosts + [Posted(readRoundRobin, task)];
      readRoundRobin := (readRoundRobin + 1) % TWO_64;
      PostKeepsConns(readers, index, task);
      readers := readers[index := readers[index].(queue := readers[index].queue + [task])];
    }

    /** Posts to writer `key % n`; dropped when there are none. */
    method PostWrite(key: uint64, task: Task)
      requires Valid()
      modifies this
      ensures Valid() && readers == old(readers) && |writers| == old(|writers|)
      ensures readPosts == old(readPosts)
      ensures writers != [] ==>
        && writers == Queued(old(writers), key % |writers|, task)
        && writePosts == old(writePosts) + [Posted(key, task)]
    {
      hide Dealt;
      if writers == [] { return; }
      var index := key % |writers|;
      PostDeals(writers, writePosts, key, task);
      writePosts := writePosts + [Posted(key, task)];
      PostKeepsConns(writers, index, task);
      writers := writers[index := writers[index].(queue := writers[index].queue + [task])];
    }

    /** A worker's thread runs the next task of its queue. */
    method RunNext(w: nat)
      requires Valid() && w < |writers| && writers[w].queue != []
      modifies this
      ensures Valid() && readers == old(readers) && readPosts == old(readPosts) && writePosts == old(writePosts)
      ensures writers == old(writers)[w := Ran(old(writers[w]))]
    {
      hide Dealt;
      RunDeals(writers, writePosts, w);
      var worker := writers[w];
      writers := writers[w := worker.(queue := worker.queue[1..], ran := worker.ran + [worker.queue[0]])];
    }

    /** Lets the guards go, waits for every queue to run dry, returns the connections in order,
        and forgets the workers. Each has run just what was posted to it since the start, in
        order. What other users hold is untouched; nothing happens when there are no workers. */
    method Stop() returns (endedReaders: seq<Worker<Task>>, endedWriters: seq<Worker<Task>>)
      requires Valid()
      modifies this, connections
      ensures Valid() && readers == [] && writers == []
      ensures endedReaders == JoinedAll(old(readers)) && Finished(endedReaders, old(readPosts))
      ensures endedWriters == JoinedAll(old(writers)) && Finished(endedWriters, old(writePosts))
      ensures connections.pool == old(connections.pool) + old(Conns())
      ensures connections.Held() == old(connections.Held()) - old(Elements(Conns()))
      ensures connections.abandoned == old(connections.abandoned)
    {
      ghost var free, held, r, w := connections.pool, connections.Held(), ConnsOf(readers), ConnsOf(writers);
      assert Conns() == r + w;
      JoinedHaveRun(readers, readPosts);
      JoinedHaveRun(writers, writePosts);
      Split(r, w, held);
      NothingHeld<Task>();
      assert free + r + w == free + (r + w);
      hide Dealt;
      hide Finished;
      hide Distinct;
      hide Elements;
      hide ConnsOf;
      hide JoinedAll;
      endedReaders := JoinAll(readers);
      endedWriters := JoinAll(writers);
      ReturnAll(connections, readers);
      ReturnAll(connections, writers);
      readers, writers := [], [];
      readPosts, writePosts := [], [];
      assert Conns() == [];
    }
  }

  /** What the server's main function does around its event loop: start, serve, and stop
      whether or not starting failed. Every connection borrowed on the way has been returned,
      except one exactly when a thread could not be started. */
  method ServerLifetime<Task(==)>(connections: ConnectionPool, readWorkers: nat, writeWorkers: nat,
                              canCreate: nat -> bool, threadStarts: nat -> bool) returns (failure: Failure)
    requires connections.Valid()
    modifies connections
    ensures connections.Valid() && connections.Held() == old(connections.Held())
    ensures failure.NoThread? <==> !(connections.abandoned <= old(connections.abandoned))
  {
    var workerPool := new AuctionWorkerPool<Task>(connections);
    failure := workerPool.Start(readWorkers, writeWorkers, canCreate, threadStarts);
    var endedReaders, endedWriters := workerPool.Stop();
    endedReaders, endedWriters := workerPool.Stop();
  }

  /** The loop over the workers that gives their connections back. */
  method ReturnAll<Task>(connections: ConnectionPool, workers: seq<Worker<Task>>)
    requires connections.Valid() && Distinct(ConnsOf(workers)) && Elements(ConnsOf(workers)) <= connections.Held()
    modifies connections
    ensures connections.Valid() && connections.abandoned == old(connections.abandoned)
    ensures connections.pool == old(connections.pool) + ConnsOf(workers)
    ensures connections.Held() == old(connections.Held()) - Elements(ConnsOf(workers))
  {
    ghost var conns, held, free := ConnsOf(workers), connections.Held(), connections.pool;
    assert held - Elements([]) == held;
    var i := 0;
    while i < |workers|
      invariant 0 <= i <= |workers|
      invariant connections.Valid() && connections.abandoned == old(connections.abandoned)
      invariant connections.pool == free + conns[..i]
      invariant connections.Held() == held - Elements(conns[..i])
    {
      hide Distinct;
      hide Elements;
      ReturnOne(conns, i, held);
      connections.Unborrow(workers[i].conn);
      i := i + 1;
    }
    assert conns[..i] == conns;
  }

  /** Each thread runs what is left in its queue, in order, and ends. */
  method JoinAll<Task>(workers: seq<Worker<Task>>) returns (ended: seq<Worker<Task>>)
    ensures ended == JoinedAll(workers)
  {
    ended := [];
    var i := 0;
    while i < |workers|
      invariant 0 <= i <= |workers|
      invariant ended + JoinedAll(workers[i..]) == JoinedAll(workers)
    {
      var queue, ran := workers[i].queue, workers[i].ran;
      while queue != []
        invariant ran + queue == workers[i].ran + workers[i].queue
        decreases |queue|
      {
        assert ran + [queue[0]] + queue[1..] == ran + queue;
        ran, queue := ran + [queue[0]], queue[1..];
      }
      assert ran + [] == ran;
      assert workers[i..][1..] == workers[i + 1..];
      ended := ended + [Worker(false, workers[i].conn, [], ran, true)];
      i := i + 1;
    }
  }

  function JoinedAll<Task>(workers: seq<Worker<Task>>): (r: seq<Worker<Task>>)
    ensures |r| == |workers| && forall i :: 0 <= i < |r| ==> r[i] == Joined(workers[i])
  {
    if workers == [] then [] else [Joined(workers[0])] + JoinedAll(workers[1..])
  }

  function Queued<Task>(workers: seq<Worker<Task>>, index: nat, task: Task): seq<Worker<Task>>
    requires index < |workers|
  {
    workers[index := workers[index].(queue := workers[index].queue + [task])]
  }

  lemma PostKeepsConns<Task>(workers: seq<Worker<Task>>, index: nat, task: Task)
    requires index < |workers|
    ensures ConnsOf(Queued(workers, index, task)) == ConnsOf(workers)
  {
  }

  lemma Added<Task>(readers: seq<Worker<Task>>, worker: Worker<Task>, writers: seq<Worker<Task>>)
    requires writers == []
    ensures ConnsOf(readers + [worker]) + ConnsOf(writers) == ConnsOf(readers) + ConnsOf(writers) + [worker.conn]
  {
  }

  lemma AddedLast<Task>(readers: seq<Worker<Task>>, writers: seq<Worker<Task>>, worker: Worker<Task>)
    ensures ConnsOf(readers) + ConnsOf(writers + [worker]) == ConnsOf(readers) + ConnsOf(writers) + [worker.conn]
  {
  }
}
