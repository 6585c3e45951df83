/** A purchase whose statements no other worker interrupts: statement by statement, with a fault
    possible at each, it does what the service's attempts do. */
module JobRefinement {
  import opened Machine
  import opened ItemMessage
  import opened AuctionTables
  import opened WriteWorkers
  import opened Interleaving
  import A = AuctionService
  import L = AuctionLedgers
  import R = AuctionRuns

  /** The error code that the job's next statement throws. */
  function FaultAt(env: A.Env, pc: Pc): Option<int> {
    match pc
    case Begin => env.fault(A.BeginWork)
    case Select => env.fault(A.SelectListing)
    case Pay => env.fault(A.PayGold)
    case Take => env.fault(A.TakeItems)
    case Log => env.fault(A.LogTransaction)
    case Receipts => env.fault(A.LogReceipts)
    case Commit => env.fault(A.CommitWork)
    case Undo => None
  }

  datatype Ended = Ended(t: Tables, next: int, success: bool, attempts: nat)

  /** Runs a job to its end. `code` is that of the last failure, which decides about a retry. */
  function RunAlone(t: Tables, next: int, j: Job, envs: nat -> A.Env, code: int): Ended
    decreases WorkOf(Worker([], Some(j), []))
  {
    var fault := FaultAt(envs(j.attempt), j.pc);
    var r := RunStatement(t, next, j, envs(j.attempt).now, fault.Some?, A.Retryable(code));
    StatementIsProgress(t, next, j, envs(j.attempt).now, fault.Some?, A.Retryable(code));
    match r.job
    case None => Ended(r.t, r.next, !j.pc.Undo?, j.attempt)
    case Some(k) =>
      var failed := k.pc.Undo?;
      RunAlone(r.t, r.next, k, envs, if !failed then code else if fault.Some? then fault.value else A.ERR_OWN)
  }

  // ---------------------------------------------------------------------------------------
  //  One attempt
  // ---------------------------------------------------------------------------------------

  function Paid(t0: Tables, info: AuctionItemInfo): Tables
    requires info.listId in t0.listings
  {
    t0.(characters := DebitGold(t0.characters, info.playerId, A.Total(t0, info)))
  }

  function Taken(t0: Tables, info: AuctionItemInfo): Tables
    requires info.listId in t0.listings && info.count > 0
  {
    Paid(t0, info).(listings := TakeStock(t0.listings, A.ReadStock(t0, info), info.listId, info.count))
  }

  /** The gold update has run, and knows what it changed. */
  predicate HasPaid(t0: Tables, j: Job, info: AuctionItemInfo)
    requires info.listId in t0.listings
  {
    && j.row == t0.listings[info.listId] && j.total == A.Total(t0, info)
    && j.payers == Payers(t0.characters, info.playerId, j.total)
  }

  /** What an attempt on `t0` that has to be rolled back may have done: nothing, the gold
      update, or that and taking the stock. */
  predicate Undoable(t0: Tables, t: Tables, j: Job) {
    && j.task.Buy?
    && var info := j.task.info;
       || (t == t0 && j.payers == [] && !j.taken)
       || (info.listId in t0.listings && HasPaid(t0, j, info) && t == Paid(t0, info) && !j.taken)
       || (info.listId in t0.listings && info.count > 0 && HasPaid(t0, j, info) && t == Taken(t0, info) && j.taken)
  }

  predicate PastBegin(info: AuctionItemInfo, env: A.Env) {
    env.fault(A.BeginWork).None? && info.count > 0
  }

  predicate PastSelect(t0: Tables, info: AuctionItemInfo, env: A.Env) {
    && PastBegin(info, env) && env.fault(A.SelectListing).None?
    && Unexpired(t0, info.listId, env.now) && t0.listings[info.listId].sellerId != info.playerId
  }

  predicate PastPay(t0: Tables, info: AuctionItemInfo, env: A.Env, foundRows: bool) {
    && PastSelect(t0, info, env) && env.fault(A.PayGold).None?
    && DebitCount(t0.characters, info.playerId, A.Total(t0, info), foundRows) != 0
  }

  predicate PastTake(t0: Tables, info: AuctionItemInfo, env: A.Env, foundRows: bool) {
    && PastPay(t0, info, env, foundRows) && env.fault(A.TakeItems).None?
    && TakeCount(t0.listings, A.ReadStock(t0, info), info.listId, info.count) != 0
  }

  /** Where an attempt on `t0` is that has not failed so far. */
  predicate Reached(t0: Tables, t: Tables, j: Job, env: A.Env) {
    && j.task.Buy?
    && var info, foundRows := j.task.info, j.task.foundRows;
       match j.pc
       case Begin => t == t0 && j.payers == [] && !j.taken
       case Select => PastBegin(info, env) && t == t0 && j.payers == [] && !j.taken
       case Pay =>
         && PastSelect(t0, info, env) && t == t0 && j.payers == [] && !j.taken
         && j.row == t0.listings[info.listId] && j.total == A.Total(t0, info)
       case Take => PastPay(t0, info, env, foundRows) && HasPaid(t0, j, info) && t == Paid(t0, info) && !j.taken
       case Log => PastTake(t0, info, env, foundRows) && HasPaid(t0, j, info) && t == Taken(t0, info) && j.taken
       case Receipts =>
         && PastTake(t0, info, env, foundRows) && env.fault(A.LogTransaction).None?
         && HasPaid(t0, j, info) && t == Taken(t0, info) && j.taken
       case Commit =>
         && PastTake(t0, info, env, foundRows) && env.fault(A.LogTransaction).None? && env.fault(A.LogReceipts).None?
         && HasPaid(t0, j, info) && t == Taken(t0, info) && j.taken
       case Undo => false
  }

  lemma {:induction false} RefundUndoesDebit(rows: seq<Character>, account: int64, total: int64)
    ensures Refund(DebitGold(rows, account, total), Payers(rows, account, total), total) == rows
  {
    if rows != [] {
      RefundUndoesDebit(rows[1..], account, total);
      var paid, payers := DebitGold(rows, account, total), Payers(rows, account, total);
      assert paid[1..] == DebitGold(rows[1..], account, total) && payers[1..] == Payers(rows[1..], account, total);
      assert rows == [rows[0]] + rows[1..];
    }
  }

  /** Alone, undoing one's own changes is restoring the copy, wherever the attempt failed. */
  lemma RollbackRestores(t0: Tables, t: Tables, next: int, j: Job, now: int, fault: bool, retry: bool)
    requires Undoable(t0, t, j) && j.pc.Undo?
    ensures RunStatement(t, next, j, now, fault, retry).t == t0
    ensures RunStatement(t, next, j, now, fault, retry).next == next
  {
    var info := j.task.info;
    if j.payers == [] {
      assert Refund(t.characters, [], j.total) == t.characters;
    }
    if info.listId in t0.listings && HasPaid(t0, j, info) {
      RefundUndoesDebit(t0.characters, info.playerId, j.total);
      if j.taken { assert t.listings[info.listId as int := j.row] == t0.listings; }
    }
  }

  /** After a failed attempt with `code`: the next one, or the end. */
  function AfterFailure(t0: Tables, next: int, task: Task, attempt: nat, envs: nat -> A.Env, code: int): Ended {
    if A.Retryable(code) && attempt < A.MAX_TX_ATTEMPTS then RunAlone(t0, next, Fresh(task, attempt + 1), envs, code)
    else Ended(t0, next, false, attempt)
  }

  lemma UndoAlone(t0: Tables, t: Tables, next: int, j: Job, envs: nat -> A.Env, code: int)
    requires Undoable(t0, t, j) && j.pc.Undo?
    ensures RunAlone(t, next, j, envs, code) == AfterFailure(t0, next, j.task, j.attempt, envs, code)
  {
    RollbackRestores(t0, t, next, j, envs(j.attempt).now, false, A.Retryable(code));
  }

  /** One statement of an attempt that has not failed so far: the attempt fails there, goes on,
      or has done its purchase. */
  lemma StatementAlone(t0: Tables, t: Tables, next: int, j: Job, env: A.Env, retry: bool)
    requires Reached(t0, t, j, env)
    ensures var info, fault := j.task.info, FaultAt(env, j.pc);
      var f := A.Failure(t0, info, env, j.task.foundRows);
      var r := RunStatement(t, next, j, env.now, fault.Some?, retry);
      && r.next == next
      && match r.job
         case None =>
           && f.None? && info.listId in t0.listings && info.count > 0 && r.t == A.Bought(t0, info)
         case Some(k) =>
           && k.attempt == j.attempt && Rank(k.pc) < Rank(j.pc)
           && (k.pc.Undo? ==> Undoable(t0, r.t, k) && f == Some(if fault.Some? then fault.value else A.ERR_OWN))
           && (!k.pc.Undo? ==> Reached(t0, r.t, k, env))
  {
  }

  /** From anywhere in an attempt on: it ends as its first failure says, or in one purchase. */
  lemma {:induction false} AttemptAlone(t0: Tables, t: Tables, next: int, j: Job, envs: nat -> A.Env, code: int)
    requires Reached(t0, t, j, envs(j.attempt))
    ensures var f := A.Failure(t0, j.task.info, envs(j.attempt), j.task.foundRows);
      && (f.Some? ==> RunAlone(t, next, j, envs, code) == AfterFailure(t0, next, j.task, j.attempt, envs, f.value))
      && (f.None? ==>
            && j.task.info.listId in t0.listings && j.task.info.count > 0
            && RunAlone(t, next, j, envs, code) == Ended(A.Bought(t0, j.task.info), next, true, j.attempt))
    decreases Rank(j.pc)
  {
    var env := envs(j.attempt);
    var fault := FaultAt(env, j.pc);
    var r := RunStatement(t, next, j, env.now, fault.Some?, A.Retryable(code));
    StatementAlone(t0, t, next, j, env, A.Retryable(code));
    assert j.task.Buy? && !j.pc.Undo?;
    hide RunStatement;
    hide Reached;
    hide Undoable;
    hide A.Failure;
    hide A.Bought;
    if r.job.Some? {
      var k := r.job.value;
      if k.pc.Undo? {
        UndoAlone(t0, r.t, next, k, envs, if fault.Some? then fault.value else A.ERR_OWN);
      } else {
        AttemptAlone(t0, r.t, next, k, envs, code);
      }
    }
  }

  /** Alone, with faults at any statements of any attempts, a purchase run statement by statement
      ends as the service's attempts do: the same tables, the same success, the same number of
      attempts. */
  lemma {:induction false} AloneIsAttempts(s: A.Session, info: AuctionItemInfo, foundRows: bool,
                                           envs: nat -> A.Env, k: nat, code: int)
    requires 1 <= k <= A.MAX_TX_ATTEMPTS && s.tables == s.durable
    ensures var o := A.Attempts(s, info, envs, k, foundRows);
      RunAlone(s.tables, s.nextListing, Fresh(Buy(info, foundRows), k), envs, code)
      == Ended(o.after.tables, s.nextListing, o.success, o.attempts)
    decreases A.MAX_TX_ATTEMPTS - k
  {
    AttemptAlone(s.tables, s.tables, s.nextListing, Fresh(Buy(info, foundRows), k), envs, code);
    var f := A.Failure(s.tables, info, envs(k), foundRows);
    if f.Some? && A.Retryable(f.value) && k < A.MAX_TX_ATTEMPTS {
      var back := s.(autoCommit := A.AutoCommitAfter(s.autoCommit, envs(k)));
      AloneIsAttempts(back, info, foundRows, envs, k + 1, f.value);
    }
  }

  /** A registration run as a task is the service's, and a fault inserts nothing. */
  lemma RegistersAsService(t: Tables, next: int, info: AuctionItemInfo, now: int, fault: bool, retry: bool)
    ensures var r := RunStatement(t, next, Fresh(Register(info), 1), now, fault, retry);
      var hours := if info.expiredAt == [50, 52] then 24 else 48;
      && r.job.None? && r.next == next + (if fault then 0 else 1)
      && r.t == if fault then t
                else t.(listings := t.listings[next := Listing(info.playerId, info.itemId, info.count, info.price,
                                                               now + 3600 * hours)])
  {
  }

  // ---------------------------------------------------------------------------------------
  //  A purchase in the system
  // ---------------------------------------------------------------------------------------

  lemma {:induction false} FinishInSystem(s: System, w: nat, t0: Tables, now: int) returns (actions: seq<Action>)
    requires w < |s.workers| && s.workers[w].current.Some?
    requires var j := s.workers[w].current.value;
      && Reached(t0, s.t, j, R.QuietAt(now)(j.attempt))
      && A.Buyable(t0, j.task.info, now, j.task.foundRows)
    ensures var j := s.workers[w].current.value;
      Run(s, actions) == s.(t := A.Bought(t0, j.task.info),
                            workers := s.workers[w := Worker(s.workers[w].queue, None, s.workers[w].done + [j.task])])
    decreases Rank(s.workers[w].current.value.pc)
  {
    var j := s.workers[w].current.value;
    var env := R.QuietAt(now)(j.attempt);
    A.CommitsExactlyWhen(t0, j.task.info, env, j.task.foundRows);
    StatementAlone(t0, s.t, s.next, j, env, false);
    assert FaultAt(env, j.pc).None?;
    var a := Statement(w, now, false, false);
    var r := Next(s, a);
    hide RunStatement;
    hide Reached;
    hide A.Failure;
    hide A.Bought;
    hide A.Buyable;
    if r.workers[w].current.None? {
      actions := [a];
      assert Run(r, actions[1..]) == r;
    } else {
      var rest := FinishInSystem(r, w, t0, now);
      actions := [a] + rest;
      assert actions[1..] == rest;
    }
  }

  /** On idle workers, a possible purchase can be posted and run to its end. */
  lemma BuyInSystem(s: System, info: AuctionItemInfo, now: int, foundRows: bool) returns (actions: seq<Action>)
    requires |s.workers| > 0 && Drained(s) && !s.stopping && A.Buyable(s.t, info, now, foundRows)
    ensures var r := Run(s, actions);
      Drained(r) && r.t == A.Bought(s.t, info) && r.next == s.next && !r.stopping && |r.workers| == |s.workers|
  {
    var task := Buy(info, foundRows);
    var w := Key(task) % |s.workers|;
    var posted := Next(s, Post(task));
    var started := Next(posted, Start(w));
    assert started.workers[w].current == Some(Fresh(task, 1));
    var rest := FinishInSystem(started, w, s.t, now);
    actions := [Post(task)] + ([Start(w)] + rest);
    assert actions[1..] == [Start(w)] + rest && ([Start(w)] + rest)[1..] == rest;
    hide A.Bought;
    hide A.Buyable;
    assert Run(posted, [Start(w)] + rest) == Run(started, rest);
  }

  function WithRows(s: System, rows: seq<Character>): System {
    s.(t := s.t.(characters := rows))
  }

  /** Whoever buys, and however the statements interleave and fail: the stock of the listing is
      accounted for whenever the workers are idle. */
  ghost predicate StockKeptWhenIdle(s: System, id: int)
    requires |s.workers| > 0
  {
    forall rows, actions :: Drained(Run(WithRows(s, rows), actions)) ==>
      L.Stock(Run(WithRows(s, rows), actions).t, id) == L.Stock(s.t, id)
  }

  /** That is so exactly for a stock that is never misread. */
  lemma StockKeptWhenIdleExactly(s: System, id: int64)
    requires InOrder(s) && Drained(s) && !s.stopping && IdsHandedOut(s.t.listings, s.next) && id in s.t.listings
    ensures StockKeptWhenIdle(s, id) <==> L.NeverMisread(s.t.listings[id].remaining)
  {
    if L.NeverMisread(s.t.listings[id].remaining) {
      forall rows, actions | Drained(Run(WithRows(s, rows), actions))
        ensures L.Stock(Run(WithRows(s, rows), actions).t, id) == L.Stock(s.t, id)
      {
        ConservedWhenIdle(WithRows(s, rows), actions, StockOf(id));
      }
    } else {
      var rows, actions := LoseStock(s, id);
      assert L.Stock(Run(WithRows(s, rows), actions).t, id) != L.Stock(s.t, id);
    }
  }

  lemma LoseStock(s: System, id: int64) returns (rows: seq<Character>, actions: seq<Action>)
    requires |s.workers| > 0 && Drained(s) && !s.stopping && id in s.t.listings
    requires !L.NeverMisread(s.t.listings[id].remaining)
    ensures Drained(Run(WithRows(s, rows), actions))
    ensures L.Stock(Run(WithRows(s, rows), actions).t, id) != L.Stock(s.t, id)
  {
    hide Run;
    hide L.Stock;
    var row := s.t.listings[id];
    var read := ToInt32(row.remaining);
    var buyer: int64 := if row.sellerId == 0 then 1 else 0;
    rows := [Character(buyer, TWO_64)];
    var start := WithRows(s, rows);
    L.StockIgnoresRows(s.t, rows, id);
    var count: int64 := if read >= 1 then read else row.remaining - (TWO_32 + 1);
    L.RichCanBuy(start.t, id, count, buyer);
    actions := BuyInSystem(start, A.Asking(id, count, buyer), row.expiresAt - 1, true);
    if read < 1 {
      var mid := Run(start, actions);
      assert ToInt32(TWO_32 + 1) == 1;
      L.RichCanBuy(mid.t, id, 1, buyer);
      var more := BuyInSystem(mid, A.Asking(id, 1, buyer), row.expiresAt - 1, true);
      RunAppend(start, actions, more);
      actions := actions + more;
    }
  }

  lemma {:induction false} RunAppend(s: System, a: seq<Action>, b: seq<Action>)
    requires |s.workers| > 0
    ensures |Run(s, a).workers| == |s.workers| && Run(s, a + b) == Run(Run(s, a), b)
    decreases |a|
  {
    if a == [] {
      assert a + b == b;
    } else {
      assert (a + b)[1..] == a[1..] + b;
      RunAppend(Next(s, a[0]), a[1..], b);
    }
  }
}
