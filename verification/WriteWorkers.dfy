/** The write workers of the auction server as a step system: tasks are routed by key, each
    worker runs its queue in order, and the SQL statements of different workers interleave
    freely, with failures at any of them. Rows a transaction inserts become visible when it
    commits; what it updates is visible at once and undone by its rollback. */
module WriteWorkers {
  import opened Machine
  import opened WireFormat
  import opened ItemMessage
  import opened AuctionTables
  import opened Routing
  import A = AuctionService

  // ---------------------------------------------------------------------------------------
  //  Tasks and workers
  // ---------------------------------------------------------------------------------------

  datatype Task =
    | Buy(info: AuctionItemInfo, foundRows: bool)
    | Register(info: AuctionItemInfo)

  /** The handlers choose the listing as the key of a purchase, the seller as that of a registration. */
  function Key(task: Task): uint64 {
    match task
    case Buy(info, _) => ToUint64(info.listId)
    case Register(info) => ToUint64(info.playerId)
  }

  /** The next statement of a running job. */
  datatype Pc = Begin | Select | Pay | Take | Log | Receipts | Commit | Undo

  /** A task being run: the row read, the amount, which character rows paid, and whether stock was taken. */
  datatype Job = Job(task: Task, attempt: nat, pc: Pc, row: Listing, total: int64, payers: seq<bool>, taken: bool)

  datatype Worker = Worker(queue: seq<Task>, current: Option<Job>, done: seq<Task>)

  /** `posted` are the tasks posted so far; once `stopping`, no more are taken. */
  datatype System = System(t: Tables, next: int, workers: seq<Worker>, posted: seq<Task>, stopping: bool)

  const NO_ROW := Listing(0, 0, 0, 0, 0)

  function Fresh(task: Task, attempt: nat): Job {
    Job(task, attempt, Begin, NO_ROW, 0, [], false)
  }

  // ---------------------------------------------------------------------------------------
  //  One statement
  // ---------------------------------------------------------------------------------------

  /** Which rows a gold update changes. */
  function Payers(rows: seq<Character>, account: int64, total: int64): (r: seq<bool>)
    ensures |r| == |rows|
  {
    if rows == [] then [] else [CanPay(rows[0], account, total)] + Payers(rows[1..], account, total)
  }

  /** The rollback of that update. */
  function Refund(rows: seq<Character>, payers: seq<bool>, total: int64): (r: seq<Character>)
    ensures |r| == |rows|
    ensures forall i :: 0 <= i < |r| ==> r[i].accountId == rows[i].accountId
  {
    if rows == [] || payers == [] then rows
    else [if payers[0] then rows[0].(gold := rows[0].gold + total) else rows[0]] + Refund(rows[1..], payers[1..], total)
  }

  datatype After = After(t: Tables, next: int, job: Option<Job>)

  /** Runs the job's next statement; past `Begin` the count is positive. `fault` makes it throw;
      `retry` is the decision after a rollback. A finished job is None. */
  function RunStatement(t: Tables, next: int, j: Job, now: int, fault: bool, retry: bool): (r: After)
    ensures r.job.Some? ==> r.job.value.task == j.task
  {
    var failed := After(t, next, Some(j.(pc := Undo)));
    match j.task
    case Register(info) =>
      if fault then After(t, next, None)
      else After(t.(listings := t.listings[next := A.ListingFor(info, now)]), next + 1, None)
    case Buy(info, foundRows) =>
      match j.pc
      case Begin => if fault || info.count <= 0 then failed else After(t, next, Some(j.(pc := Select)))
      case Select =>
        if fault || !Unexpired(t, info.listId, now) then failed
        else
          var row := t.listings[info.listId];
          if row.sellerId == info.playerId then failed
          else After(t, next, Some(j.(pc := Pay, row := row, total := A.Total(t, info))))
      case Pay =>
        if fault || DebitCount(t.characters, info.playerId, j.total, foundRows) == 0 then failed
        else After(t.(characters := DebitGold(t.characters, info.playerId, j.total)), next,
                   Some(j.(pc := Take, payers := Payers(t.characters, info.playerId, j.total))))
      case Take =>
        if fault || info.count <= 0
           || TakeCount(t.listings, ToInt32(j.row.remaining), info.listId, info.count) == 0 then failed
        else After(t.(listings := TakeStock(t.listings, ToInt32(j.row.remaining), info.listId, info.count)), next,
                   Some(j.(pc := Log, taken := true)))
      case Log => if fault then failed else After(t, next, Some(j.(pc := Receipts)))
      case Receipts => if fault then failed else After(t, next, Some(j.(pc := Commit)))
      case Commit =>
        if fault then failed
        else
          var itemId := ToInt32(j.row.itemId);
          After(t.(transactions := t.transactions + [Transaction(itemId, info.count, j.total)],
                   receipts := t.receipts + [BuyerReceipt(info.playerId, itemId, info.count, info.listId),
                                             SellerReceipt(j.row.sellerId, j.total, info.listId)]),
                next, None)
      case Undo =>
        After(t.(characters := Refund(t.characters, j.payers, j.total),
                 listings := if j.taken then t.listings[info.listId as int := j.row] else t.listings),
              next,
              if retry && j.attempt < A.MAX_TX_ATTEMPTS then Some(Fresh(j.task, j.attempt + 1)) else None)
  }

  // ---------------------------------------------------------------------------------------
  //  The system
  // ---------------------------------------------------------------------------------------

  datatype Action =
    | Post(task: Task)
    | Start(w: nat)
    | Statement(w: nat, now: int, fault: bool, retry: bool)
    | Stop

  function Next(s: System, a: Action): System
    requires |s.workers| > 0
  {
    match a
    case Post(task) =>
      if s.stopping then s
      else
        var i := Key(task) % |s.workers|;
        s.(posted := s.posted + [task],
           workers := s.workers[i := s.workers[i].(queue := s.workers[i].queue + [task])])
    case Start(w) =>
      if w < |s.workers| && s.workers[w].current.None? && s.workers[w].queue != [] then
        var worker := s.workers[w];
        s.(workers := s.workers[w := worker.(queue := worker.queue[1..], current := Some(Fresh(worker.queue[0], 1)))])
      else s
    case Statement(w, now, fault, retry) =>
      if w < |s.workers| && s.workers[w].current.Some? then
        var worker := s.workers[w];
        var job := worker.current.value;
        var r := RunStatement(s.t, s.next, job, now, fault, retry);
        var after := if r.job.Some? then worker.(current := r.job)
                     else worker.(current := None, done := worker.done + [job.task]);
        s.(t := r.t, next := r.next, workers := s.workers[w := after])
      else s
    case Stop => s.(stopping := true)
  }

  function Run(s: System, actions: seq<Action>): System
    requires |s.workers| > 0
    decreases |actions|
  {
    if actions == [] then s else Run(Next(s, actions[0]), actions[1..])
  }

  /** A worker that can take its next task, or whose job can run its next statement. */
  predicate Effective(s: System, a: Action) {
    match a
    case Start(w) => w < |s.workers| && s.workers[w].current.None? && s.workers[w].queue != []
    case Statement(w, _, _, _) => w < |s.workers| && s.workers[w].current.Some?
    case _ => false
  }

  // ---------------------------------------------------------------------------------------
  //  Routing and order
  // ---------------------------------------------------------------------------------------

  function Running(worker: Worker): seq<Task> {
    if worker.current.Some? then [worker.current.value.task] else []
  }

  /** What a worker did, does and will do. */
  function Through(worker: Worker): seq<Task> {
    worker.done + Running(worker) + worker.queue
  }

  predicate InOrder(s: System) {
    && |s.workers| > 0
    && forall w :: 0 <= w < |s.workers| ==>
         Through(s.workers[w]) == Routed(s.posted, Key, w, |s.workers|)
  }

  lemma PostKeepsOrder(s: System, task: Task)
    requires InOrder(s) && !s.stopping
    ensures InOrder(Next(s, Post(task)))
  {
    var r := Next(s, Post(task));
    var n := |s.workers|;
    hide Routed;
    forall w | 0 <= w < n ensures Through(r.workers[w]) == Routed(r.posted, Key, w, n) {
      RoutedAppend(s.posted, Key, task, w, n);
      var before := s.workers[w];
      assert before.done + Running(before) + (before.queue + [task]) == Through(before) + [task];
    }
  }

  /** Taking a task, or running a statement, changes one worker and not what passes through it. */
  lemma WorkKeepsOrder(s: System, a: Action)
    requires InOrder(s) && (a.Start? || a.Statement?)
    ensures InOrder(Next(s, a)) && Next(s, a).posted == s.posted && Next(s, a).stopping == s.stopping
  {
    var r := Next(s, a);
    hide Routed;
    hide RunStatement;
    if Effective(s, a) {
      var before, after := s.workers[a.w], r.workers[a.w];
      assert Through(after) == Through(before) by {
        if a.Start? { assert before.queue == [before.queue[0]] + before.queue[1..]; }
      }
    }
  }

  lemma StepKeepsOrder(s: System, a: Action)
    requires InOrder(s)
    ensures InOrder(Next(s, a)) && |Next(s, a).workers| == |s.workers|
    ensures s.stopping ==> Next(s, a).stopping && Next(s, a).posted == s.posted
  {
    match a {
      case Post(task) => if !s.stopping { PostKeepsOrder(s, task); }
      case Start(w) => WorkKeepsOrder(s, a);
      case Statement(w, now, fault, retry) => WorkKeepsOrder(s, a);
      case Stop =>
    }
  }

  lemma {:induction false} RunKeepsOrder(s: System, actions: seq<Action>)
    requires InOrder(s)
    ensures InOrder(Run(s, actions)) && |Run(s, actions).workers| == |s.workers|
    ensures s.stopping ==> Run(s, actions).posted == s.posted
    decreases |actions|
  {
    hide Next;
    if actions != [] {
      StepKeepsOrder(s, actions[0]);
      RunKeepsOrder(Next(s, actions[0]), actions[1..]);
    }
  }

  predicate Drained(s: System) {
    forall w :: 0 <= w < |s.workers| ==> s.workers[w].current.None? && s.workers[w].queue == []
  }

  function NewSystem(t: Tables, next: int, n: nat): System {
    System(t, next, seq(n, _ => Worker([], None, [])), [], false)
  }

  // ---------------------------------------------------------------------------------------
  //  Stopping
  // ---------------------------------------------------------------------------------------

  ghost predicate Stuck(s: System) {
    forall a :: !Effective(s, a)
  }

  function Rank(pc: Pc): nat {
    match pc
    case Begin => 8 case Select => 7 case Pay => 6 case Take => 5
    case Log => 4 case Receipts => 3 case Commit => 2 case Undo => 1
  }

  /** An upper bound on the statements a worker has still to run, retries included. */
  function WorkOf(worker: Worker): nat {
    25 * |worker.queue|
    + match worker.current
      case None => 0
      case Some(j) => (if j.attempt < A.MAX_TX_ATTEMPTS then 8 * (A.MAX_TX_ATTEMPTS - j.attempt) else 0) + Rank(j.pc)
  }

  function Work(workers: seq<Worker>): nat {
    if workers == [] then 0 else WorkOf(workers[0]) + Work(workers[1..])
  }

  lemma {:induction false} WorkUpdate(workers: seq<Worker>, w: nat, worker: Worker)
    requires w < |workers|
    ensures Work(workers[w := worker]) == Work(workers) - WorkOf(workers[w]) + WorkOf(worker)
  {
    if w == 0 {
      assert workers[0 := worker][1..] == workers[1..];
    } else {
      assert workers[w := worker][1..] == workers[1..][w - 1 := worker];
      WorkUpdate(workers[1..], w - 1, worker);
    }
  }

  /** Every task taken and every statement run, failures and retries included, is progress. */
  lemma EffectiveIsProgress(s: System, a: Action)
    requires |s.workers| > 0
    ensures Effective(s, a) ==> Work(Next(s, a).workers) < Work(s.workers)
    ensures !Effective(s, a) && !a.Post? && !a.Stop? ==> Next(s, a) == s
  {
    if Effective(s, a) {
      var w := a.w;
      var r := Next(s, a);
      if a.Statement? {
        StatementIsProgress(s.t, s.next, s.workers[w].current.value, a.now, a.fault, a.retry);
      }
      WorkUpdate(s.workers, w, r.workers[w]);
    }
  }

  lemma StatementIsProgress(t: Tables, next: int, j: Job, now: int, fault: bool, retry: bool)
    ensures var r := RunStatement(t, next, j, now, fault, retry);
      r.job.Some? ==> WorkOf(Worker([], r.job, [])) < WorkOf(Worker([], Some(j), []))
  {
  }

  function EffectiveSteps(s: System, actions: seq<Action>): nat
    requires |s.workers| > 0
    decreases |actions|
  {
    if actions == [] then 0
    else (if Effective(s, actions[0]) then 1 else 0) + EffectiveSteps(Next(s, actions[0]), actions[1..])
  }

  /** Once stopping, no schedule can go on for more than so many steps. */
  lemma {:induction false} StoppingEnds(s: System, actions: seq<Action>)
    requires InOrder(s) && s.stopping
    ensures EffectiveSteps(s, actions) <= Work(s.workers)
    decreases |actions|
  {
    if actions != [] {
      EffectiveIsProgress(s, actions[0]);
      StepKeepsOrder(s, actions[0]);
      assert !Effective(s, actions[0]) ==> Next(s, actions[0]).workers == s.workers;
      hide Next;
      StoppingEnds(Next(s, actions[0]), actions[1..]);
    }
  }

  lemma StuckIsDrained(s: System)
    ensures Stuck(s) <==> Drained(s)
  {
    if Stuck(s) {
      forall w | 0 <= w < |s.workers| ensures s.workers[w].current.None? && s.workers[w].queue == [] {
        assert !Effective(s, Start(w)) && !Effective(s, Statement(w, 0, false, false));
      }
    }
  }

  // What matters of the order, in the players' terms.

  function RegistrationsBy(tasks: seq<Task>, player: int64): seq<Task> {
    if tasks == [] then []
    else (if tasks[0].Register? && tasks[0].info.playerId == player then [tasks[0]] else [])
         + RegistrationsBy(tasks[1..], player)
  }

  function PurchasesOf(tasks: seq<Task>, listId: int64): seq<Task> {
    if tasks == [] then []
    else (if tasks[0].Buy? && tasks[0].info.listId == listId then [tasks[0]] else []) + PurchasesOf(tasks[1..], listId)
  }

  /** They share a key, so the tasks with that key hold all of them, in order. */
  lemma {:induction false} OneKeyEach(tasks: seq<Task>, x: int64)
    ensures RegistrationsBy(WithKey(tasks, Key, ToUint64(x)), x) == RegistrationsBy(tasks, x)
    ensures PurchasesOf(WithKey(tasks, Key, ToUint64(x)), x) == PurchasesOf(tasks, x)
  {
    if tasks != [] {
      OneKeyEach(tasks[1..], x);
      var all, rest := WithKey(tasks, Key, ToUint64(x)), WithKey(tasks[1..], Key, ToUint64(x));
      if Key(tasks[0]) == ToUint64(x) {
        assert all == [tasks[0]] + rest && all[1..] == rest;
      } else {
        assert all == [] + rest == rest;
        assert !(tasks[0].Register? && tasks[0].info.playerId == x) && !(tasks[0].Buy? && tasks[0].info.listId == x);
      }
    }
  }

  /** After any run and a stop, whatever is scheduled then and whatever fails: only boundedly
      many steps remain, and when none is left, every task posted before the stop has run
      exactly once, on worker key % n; those with one key ran in the order they were posted, so
      did the registrations of each seller and the purchases of each listing. */
  lemma StopRunsEverything(t: Tables, next: int, n: nat, before: seq<Action>, after: seq<Action>, key: uint64)
    requires n > 0
    ensures var s := Run(NewSystem(t, next, n), before);
      && |s.workers| == n
      && EffectiveSteps(Next(s, Stop), after) <= Work(s.workers)
      && var r := Run(Next(s, Stop), after);
         && |r.workers| == n
         && (Stuck(r) ==>
              && (forall w :: 0 <= w < n ==> r.workers[w].done == Routed(s.posted, Key, w, n))
              && (var w := key % n; WithKey(r.workers[w].done, Key, key) == WithKey(s.posted, Key, key))
              && (forall x: int64 :: var w := ToUint64(x) % n;
                    && RegistrationsBy(r.workers[w].done, x) == RegistrationsBy(s.posted, x)
                    && PurchasesOf(r.workers[w].done, x) == PurchasesOf(s.posted, x)))
  {
    var start := NewSystem(t, next, n);
    RunKeepsOrder(start, before);
    var s := Run(start, before);
    StepKeepsOrder(s, Stop);
    StoppingEnds(Next(s, Stop), after);
    RunKeepsOrder(Next(s, Stop), after);
    var r := Run(Next(s, Stop), after);
    if Stuck(r) {
      StuckIsDrained(r);
      DrainedRanEverything(r, key);
      forall x: int64
        ensures var w := ToUint64(x) % n;
          && RegistrationsBy(r.workers[w].done, x) == RegistrationsBy(s.posted, x)
          && PurchasesOf(r.workers[w].done, x) == PurchasesOf(s.posted, x)
      {
        DrainedInOrder(r, x);
      }
    }
  }

  /** One seller's registrations, and the purchases of one listing, ran in the order posted. */
  lemma DrainedInOrder(r: System, x: int64)
    requires InOrder(r) && Drained(r)
    ensures var done := r.workers[ToUint64(x) % |r.workers|].done;
      && RegistrationsBy(done, x) == RegistrationsBy(r.posted, x)
      && PurchasesOf(done, x) == PurchasesOf(r.posted, x)
  {
    var key := ToUint64(x);
    DrainedRanEverything(r, key);
    OneKeyEach(r.posted, x);
    OneKeyEach(r.workers[key % |r.workers|].done, x);
  }

  /** A drained system has run every posted task exactly once, on worker key % n, whether or not
      tasks threw; tasks with the same key ran in the order they were posted. */
  lemma DrainedRanEverything(r: System, key: uint64)
    requires InOrder(r) && Drained(r)
    ensures forall w :: 0 <= w < |r.workers| ==> r.workers[w].done == Routed(r.posted, Key, w, |r.workers|)
    ensures WithKey(r.workers[key % |r.workers|].done, Key, key) == WithKey(r.posted, Key, key)
  {
    var n := |r.workers|;
    WithKeyOfRouted(r.posted, Key, key, n);
    forall w | 0 <= w < n ensures r.workers[w].done == Routed(r.posted, Key, w, n) {
      assert Through(r.workers[w]) == r.workers[w].done;
    }
  }

  /** There always is a schedule that gets there. */
  lemma {:induction false} CanDrain(s: System) returns (actions: seq<Action>)
    requires |s.workers| > 0
    ensures Stuck(Run(s, actions))
    decreases Work(s.workers)
  {
    actions := [];
    if !Stuck(s) {
      var a :| Effective(s, a);
      EffectiveIsProgress(s, a);
      var rest := CanDrain(Next(s, a));
      actions := [a] + rest;
      assert actions[1..] == rest;
    }
  }
}
