/** What every interleaving of the write workers' statements keeps: purchases of one listing
    never overlap, the stock a purchase read is still the stored one when it takes its items,
    and gold and stock are conserved through failures, rollbacks and retries. */
module Interleaving {
  import opened Machine
  import opened WireFormat
  import opened ItemMessage
  import opened AuctionTables
  import L = AuctionLedgers
  import opened Routing
  import opened WriteWorkers

  // ---------------------------------------------------------------------------------------
  //  The state of one job
  // ---------------------------------------------------------------------------------------

  function CountTrue(b: seq<bool>): nat {
    if b == [] then 0 else (if b[0] then 1 else 0) + CountTrue(b[1..])
  }

  /** The listing as the job left it after taking its items. */
  predicate TookItems(t: Tables, next: int, j: Job)
    requires j.task.Buy?
  {
    var id, count := j.task.info.listId, j.task.info.count;
    && 1 <= id < next && count > 0 && L.NeverMisread(j.row.remaining) && j.row.remaining >= count
    && (j.row.remaining == count ==> id !in t.listings)
    && (j.row.remaining > count ==>
          id in t.listings && t.listings[id] == j.row.(remaining := j.row.remaining - count))
  }

  /** The gold of a purchase has been charged to one row from its update on. */
  predicate PaidOnce(t: Tables, j: Job) {
    && (j.payers == [] || |j.payers| == |t.characters|)
    && (j.pc.Begin? || j.pc.Select? || j.pc.Pay? ==> j.payers == [])
    && (j.pc.Take? || j.pc.Log? || j.pc.Receipts? || j.pc.Commit? ==> CountTrue(j.payers) == 1)
  }

  /** What is to be shown: that the row read stays the stored one; that gold, or the stock of a
      listing, is conserved. */
  datatype Measure = Rows | Gold | StockOf(id: int)

  /** The row read is the stored one until items are taken of it; what a measure needs besides. */
  predicate JobInv(t: Tables, next: int, j: Job, m: Measure) {
    match j.task
    case Register(_) => !j.taken && j.payers == []
    case Buy(info, _) =>
      && (j.pc.Log? || j.pc.Receipts? || j.pc.Commit? ==> j.taken)
      && (j.pc.Begin? || j.pc.Select? || j.pc.Pay? || j.pc.Take? ==> !j.taken)
      && (j.pc.Pay? || j.pc.Take? ==> info.listId in t.listings && t.listings[info.listId] == j.row)
      && (j.taken ==> 1 <= info.listId < next && (m.StockOf? && m.id == info.listId ==> TookItems(t, next, j)))
      && (m.Gold? ==> PaidOnce(t, j))
  }

  /** What the tables keep all the time: for the row read nothing but that ids are handed out
      once; for the stock of a listing, that this one stock is never misread; for gold, that an
      account has one row. */
  predicate TablesInv(t: Tables, next: int, m: Measure) {
    && IdsHandedOut(t.listings, next)
    && (m.StockOf? ==> m.id < next && L.SafeFor(t, m.id))
    && (m.Gold? ==> L.OneRowPerAccount(t.characters))
  }

  // ---------------------------------------------------------------------------------------
  //  Two ledgers
  // ---------------------------------------------------------------------------------------

  function Ledger(t: Tables, m: Measure): int {
    match m
    case Rows => 0
    case Gold => L.AllGold(t)
    case StockOf(id) => L.Stock(t, id)
  }

  /** What a job has taken out of the tables and not yet recorded. */
  function Pending(j: Option<Job>, m: Measure): int {
    if j.None? then 0
    else match m
      case Rows => 0
      case Gold => j.value.total * CountTrue(j.value.payers)
      case StockOf(id) =>
        if j.value.taken && j.value.task.info.listId == id then j.value.task.info.count else 0
  }

  lemma {:induction false} PayersCount(rows: seq<Character>, account: int64, total: int64)
    ensures CountTrue(Payers(rows, account, total)) == PayingRows(rows, account, total)
  {
    if rows != [] {
      PayersCount(rows[1..], account, total);
    }
  }

  lemma {:induction false} RefundGives(rows: seq<Character>, payers: seq<bool>, total: int64)
    requires |payers| == |rows| || payers == []
    ensures L.CharacterGold(Refund(rows, payers, total)) == L.CharacterGold(rows) + total * CountTrue(payers)
  {
    if rows != [] && payers != [] {
      RefundGives(rows[1..], payers[1..], total);
      assert Refund(rows, payers, total)[1..] == Refund(rows[1..], payers[1..], total);
      var one := if payers[0] then 1 else 0;
      assert total * CountTrue(payers) == total * one + total * CountTrue(payers[1..]);
    }
  }

  // ---------------------------------------------------------------------------------------
  //  One statement keeps everything
  // ---------------------------------------------------------------------------------------

  /** Between two states, nothing but the listing `id` may differ among the listings. */
  ghost predicate OnlyTouches(t: Tables, next: int, r: After, id: int) {
    && |r.t.characters| == |t.characters|
    && (forall x :: x != id ==> (x in r.t.listings <==> x in t.listings))
    && (forall x :: x != id && x in t.listings ==> r.t.listings[x] == t.listings[x])
    && next <= r.next
  }

  lemma StatementFrame(t: Tables, next: int, j: Job, now: int, fault: bool, retry: bool)
    ensures OnlyTouches(t, next, RunStatement(t, next, j, now, fault, retry),
                        if j.task.Buy? then j.task.info.listId else next)
  {
  }

  /** Another job, on another listing, does not notice. */
  lemma OtherJobKept(t: Tables, next: int, r: After, touched: int, other: Job, m: Measure)
    requires OnlyTouches(t, next, r, touched) && JobInv(t, next, other, m)
    requires IdsHandedOut(t.listings, next)
    requires other.task.Buy? ==> other.task.info.listId != touched || touched == next
    ensures JobInv(r.t, r.next, other, m)
  {
  }

  predicate Balanced(t: Tables, j: Job, r: After, m: Measure) {
    Ledger(r.t, m) + Pending(r.job, m) == Ledger(t, m) + Pending(Some(j), m)
  }

  predicate StatementKeeps(t: Tables, next: int, j: Job, r: After, m: Measure) {
    && TablesInv(r.t, r.next, m)
    && (r.job.Some? ==> JobInv(r.t, r.next, r.job.value, m))
    && Balanced(t, j, r, m)
  }

  lemma RegisterKeeps(t: Tables, next: int, j: Job, now: int, fault: bool, retry: bool, m: Measure)
    requires TablesInv(t, next, m) && JobInv(t, next, j, m) && j.task.Register?
    ensures StatementKeeps(t, next, j, RunStatement(t, next, j, now, fault, retry), m)
  {
  }

  lemma QuietKeeps(t: Tables, next: int, j: Job, now: int, fault: bool, retry: bool, m: Measure)
    requires TablesInv(t, next, m) && JobInv(t, next, j, m) && j.task.Buy?
    requires j.pc.Begin? || j.pc.Select? || j.pc.Log? || j.pc.Receipts?
    ensures StatementKeeps(t, next, j, RunStatement(t, next, j, now, fault, retry), m)
  {
    assert CountTrue([]) == 0;
  }

  lemma PayKeeps(t: Tables, next: int, j: Job, now: int, fault: bool, retry: bool, m: Measure)
    requires TablesInv(t, next, m) && JobInv(t, next, j, m) && j.task.Buy? && j.pc.Pay?
    ensures StatementKeeps(t, next, j, RunStatement(t, next, j, now, fault, retry), m)
  {
    if m.Gold? {
      PayKeepsGold(t, j);
    }
  }

  lemma PayKeepsGold(t: Tables, j: Job)
    requires L.OneRowPerAccount(t.characters) && j.task.Buy? && j.payers == []
    ensures var account, paid := j.task.info.playerId, DebitGold(t.characters, j.task.info.playerId, j.total);
      var n := CountTrue(Payers(t.characters, account, j.total));
      && L.CharacterGold(paid) == L.CharacterGold(t.characters) - j.total * n
      && n == PayingRows(t.characters, account, j.total) <= 1
      && CountTrue(j.payers) == 0
  {
    var account := j.task.info.playerId;
    assert CountTrue([]) == 0;
    L.DebitTakes(t.characters, account, j.total);
    L.OneRowPays(t.characters, account, j.total);
    PayersCount(t.characters, account, j.total);
  }

  /** The DELETE has no guard of its own, and the UPDATE's guard is on the stored stock; both
      take just what was asked for, because the stored row is the one that was read. */
  lemma TakeKeeps(t: Tables, next: int, j: Job, now: int, fault: bool, retry: bool, m: Measure)
    requires TablesInv(t, next, m) && JobInv(t, next, j, m) && j.task.Buy? && j.pc.Take?
    ensures StatementKeeps(t, next, j, RunStatement(t, next, j, now, fault, retry), m)
  {
    assert m.StockOf? && m.id == j.task.info.listId ==> L.NeverMisread(t.listings[j.task.info.listId].remaining);
  }

  lemma CommitKeeps(t: Tables, next: int, j: Job, now: int, fault: bool, retry: bool, m: Measure)
    requires TablesInv(t, next, m) && JobInv(t, next, j, m) && j.task.Buy? && j.pc.Commit?
    ensures StatementKeeps(t, next, j, RunStatement(t, next, j, now, fault, retry), m)
  {
    var info := j.task.info;
    var buyer := BuyerReceipt(info.playerId, ToInt32(j.row.itemId), info.count, info.listId);
    var seller := SellerReceipt(j.row.sellerId, j.total, info.listId);
    L.SellerGoldAppend(t.receipts, [buyer, seller]);
    forall id
      ensures L.Sold(t.receipts + [buyer, seller], id)
           == L.Sold(t.receipts, id) + if id == info.listId then info.count else 0
    {
      L.SoldAppend(t.receipts, [buyer, seller], id);
      L.PurchaseReceipts(buyer, seller, id);
    }
    L.PurchaseReceipts(buyer, seller, info.listId);
    assert m.Gold? ==> j.total * CountTrue(j.payers) == j.total;
  }

  lemma UndoKeeps(t: Tables, next: int, j: Job, now: int, fault: bool, retry: bool, m: Measure)
    requires TablesInv(t, next, m) && JobInv(t, next, j, m) && j.task.Buy? && j.pc.Undo?
    ensures StatementKeeps(t, next, j, RunStatement(t, next, j, now, fault, retry), m)
  {
    assert CountTrue([]) == 0;
    if m.Gold? { RefundGives(t.characters, j.payers, j.total); }
  }

  lemma StatementIsSafe(t: Tables, next: int, j: Job, now: int, fault: bool, retry: bool, m: Measure)
    requires TablesInv(t, next, m) && JobInv(t, next, j, m)
    ensures StatementKeeps(t, next, j, RunStatement(t, next, j, now, fault, retry), m)
  {
    hide TablesInv;
    hide JobInv;
    hide RunStatement;
    hide StatementKeeps;
    if j.task.Register? { RegisterKeeps(t, next, j, now, fault, retry, m); }
    else {
      match j.pc {
        case Begin => QuietKeeps(t, next, j, now, fault, retry, m);
        case Select => QuietKeeps(t, next, j, now, fault, retry, m);
        case Pay => PayKeeps(t, next, j, now, fault, retry, m);
        case Take => TakeKeeps(t, next, j, now, fault, retry, m);
        case Log => QuietKeeps(t, next, j, now, fault, retry, m);
        case Receipts => QuietKeeps(t, next, j, now, fault, retry, m);
        case Commit => CommitKeeps(t, next, j, now, fault, retry, m);
        case Undo => UndoKeeps(t, next, j, now, fault, retry, m);
      }
    }
  }

  // ---------------------------------------------------------------------------------------
  //  The whole system
  // ---------------------------------------------------------------------------------------

  function PendingAll(workers: seq<Worker>, m: Measure): int {
    if workers == [] then 0 else Pending(workers[0].current, m) + PendingAll(workers[1..], m)
  }

  lemma {:induction false} PendingUpdate(workers: seq<Worker>, w: nat, worker: Worker, m: Measure)
    requires w < |workers|
    ensures PendingAll(workers[w := worker], m)
         == PendingAll(workers, m) - Pending(workers[w].current, m) + Pending(worker.current, m)
  {
    if w == 0 {
      assert workers[0 := worker][1..] == workers[1..];
    } else {
      assert workers[w := worker][1..] == workers[1..][w - 1 := worker];
      PendingUpdate(workers[1..], w - 1, worker, m);
    }
  }

  predicate JobsInv(s: System, m: Measure) {
    forall w :: 0 <= w < |s.workers| && s.workers[w].current.Some? ==>
      JobInv(s.t, s.next, s.workers[w].current.value, m)
  }

  predicate Inv(s: System, m: Measure) {
    InOrder(s) && TablesInv(s.t, s.next, m) && JobsInv(s, m)
  }

  /** A worker runs only posted tasks that were routed to it. */
  lemma RunningIsRouted(s: System, w: nat)
    requires InOrder(s) && w < |s.workers| && s.workers[w].current.Some?
    ensures var task := s.workers[w].current.value.task; task in s.posted && Key(task) % |s.workers| == w
  {
    var worker := s.workers[w];
    var all := worker.done + Running(worker) + worker.queue;
    assert all[|worker.done|] == worker.current.value.task;
    RoutedPosted(s.posted, Key, w, |s.workers|);
  }

  /** Routing by listing and one task at a time: two purchases of one listing never overlap. */
  lemma NoOverlap(s: System, v: nat, w: nat)
    requires InOrder(s) && v < |s.workers| && w < |s.workers| && v != w
    requires s.workers[v].current.Some? && s.workers[w].current.Some?
    requires s.workers[v].current.value.task.Buy? && s.workers[w].current.value.task.Buy?
    ensures s.workers[v].current.value.task.info.listId != s.workers[w].current.value.task.info.listId
  {
    RunningIsRouted(s, v);
    RunningIsRouted(s, w);
  }

  ghost predicate SameTotal(s: System, r: System, m: Measure) {
    Ledger(r.t, m) + PendingAll(r.workers, m) == Ledger(s.t, m) + PendingAll(s.workers, m)
  }

  lemma StatementStep(s: System, w: nat, now: int, fault: bool, retry: bool, m: Measure)
    requires Inv(s, m) && w < |s.workers| && s.workers[w].current.Some?
    ensures var r := Next(s, Statement(w, now, fault, retry));
      TablesInv(r.t, r.next, m) && JobsInv(r, m) && SameTotal(s, r, m) && s.next <= r.next
  {
    var j := s.workers[w].current.value;
    var after := RunStatement(s.t, s.next, j, now, fault, retry);
    RunningIsRouted(s, w);
    StatementIsSafe(s.t, s.next, j, now, fault, retry, m);
    StatementFrame(s.t, s.next, j, now, fault, retry);
    var r := Next(s, Statement(w, now, fault, retry));
    hide RunStatement;
    PendingUpdate(s.workers, w, r.workers[w], m);
    var touched := if j.task.Buy? then j.task.info.listId else s.next;
    forall v | 0 <= v < |r.workers| && r.workers[v].current.Some?
      ensures JobInv(r.t, r.next, r.workers[v].current.value, m)
    {
      if v != w {
        var other := s.workers[v].current.value;
        if j.task.Buy? && other.task.Buy? { NoOverlap(s, v, w); }
        OtherJobKept(s.t, s.next, after, touched, other, m);
      }
    }
  }

  lemma PostStep(s: System, task: Task, m: Measure)
    requires Inv(s, m)
    ensures var r := Next(s, Post(task));
      JobsInv(r, m) && SameTotal(s, r, m) && r.t == s.t && r.next == s.next
  {
    hide TablesInv;
    hide JobInv;
    hide Ledger;
    var i := Key(task) % |s.workers|;
    PendingUpdate(s.workers, i, Next(s, Post(task)).workers[i], m);
  }

  lemma StartStep(s: System, w: nat, m: Measure)
    requires Inv(s, m)
    ensures var r := Next(s, Start(w));
      JobsInv(r, m) && SameTotal(s, r, m) && r.t == s.t && r.next == s.next && r.posted == s.posted
  {
    hide TablesInv;
    hide JobInv;
    hide Ledger;
    if Effective(s, Start(w)) {
      PendingUpdate(s.workers, w, Next(s, Start(w)).workers[w], m);
      StartIsSafe(s.t, s.next, s.workers[w].queue[0], m);
    }
  }

  lemma StepKeeps(s: System, a: Action, m: Measure)
    requires Inv(s, m)
    ensures Inv(Next(s, a), m) && SameTotal(s, Next(s, a), m) && s.next <= Next(s, a).next
  {
    hide TablesInv;
    hide JobInv;
    StepKeepsOrder(s, a);
    match a {
      case Post(task) => PostStep(s, task, m);
      case Start(w) => StartStep(s, w, m);
      case Statement(w, now, fault, retry) =>
        if w < |s.workers| && s.workers[w].current.Some? {
          StatementStep(s, w, now, fault, retry, m);
        }
      case Stop =>
    }
  }

  lemma StartIsSafe(t: Tables, next: int, task: Task, m: Measure)
    ensures JobInv(t, next, Fresh(task, 1), m) && Pending(Some(Fresh(task, 1)), m) == 0
  {
    assert CountTrue([]) == 0;
  }

  /** Over every interleaving, with any faults and retries: the tables' totals plus what running
      purchases hold stay what they were. */
  lemma {:induction false} RunKeeps(s: System, actions: seq<Action>, m: Measure)
    requires Inv(s, m)
    ensures Inv(Run(s, actions), m) && SameTotal(s, Run(s, actions), m)
    decreases |actions|
  {
    assert InOrder(s);
    hide Inv;
    hide Next;
    hide Ledger;
    if actions != [] {
      StepKeeps(s, actions[0], m);
      RunKeeps(Next(s, actions[0]), actions[1..], m);
    }
  }

  lemma {:induction false} NothingPending(workers: seq<Worker>, m: Measure)
    requires forall worker <- workers :: worker.current.None?
    ensures PendingAll(workers, m) == 0
  {
    if workers != [] {
      assert workers[0] in workers;
      NothingPending(workers[1..], m);
    }
  }

  /** Whenever all workers are idle again, gold is conserved, and so is the stock of every
      listing: what remains plus what buyers hold receipts for. */
  lemma ConservedWhenIdle(s: System, actions: seq<Action>, m: Measure)
    requires Inv(s, m)
    requires Drained(s) && Drained(Run(s, actions))
    ensures Ledger(Run(s, actions).t, m) == Ledger(s.t, m)
  {
    RunKeeps(s, actions, m);
    NothingPending(s.workers, m);
    NothingPending(Run(s, actions).workers, m);
  }

  lemma {:induction false} NoneTaken(workers: seq<Worker>, id: int)
    requires forall k :: 0 <= k < |workers| && workers[k].current.Some? && workers[k].current.value.taken ==>
               workers[k].current.value.task.info.listId != id
    ensures PendingAll(workers, StockOf(id)) == 0
  {
    if workers != [] {
      NoneTaken(workers[1..], id);
    }
  }

  /** A registration opens a ledger for its listing. */
  lemma RegistrationOpensLedger(s: System, w: nat, now: int, retry: bool)
    requires Inv(s, Rows) && w < |s.workers| && s.workers[w].current.Some?
    requires var task := s.workers[w].current.value.task; task.Register? && L.NeverMisread(task.info.count)
    ensures var r, m := Next(s, Statement(w, now, false, retry)), StockOf(s.next);
      && Inv(r, m) && PendingAll(r.workers, m) == 0
      && Ledger(r.t, m) == s.workers[w].current.value.task.info.count + L.Sold(s.t.receipts, s.next)
  {
    var a := Statement(w, now, false, retry);
    StepKeeps(s, a, Rows);
    var r := Next(s, a);
    forall k | 0 <= k < |r.workers| && r.workers[k].current.Some? && r.workers[k].current.value.taken
      ensures r.workers[k].current.value.task.info.listId != s.next
    {
      assert r.workers[k] == s.workers[k];
    }
    NoneTaken(r.workers, s.next);
  }

  /** From its registration on, under any interleaving: whenever the workers are idle, what
      remains of the listing plus what has been sold of it since is the count registered. */
  lemma RegisteredStaysAccountedFor(s: System, w: nat, now: int, retry: bool, actions: seq<Action>)
    requires Inv(s, Rows) && w < |s.workers| && s.workers[w].current.Some?
    requires var task := s.workers[w].current.value.task; task.Register? && L.NeverMisread(task.info.count)
    requires Drained(Run(Next(s, Statement(w, now, false, retry)), actions))
    ensures var t := Run(Next(s, Statement(w, now, false, retry)), actions).t;
      L.Remaining(t, s.next) + L.Sold(t.receipts, s.next) - L.Sold(s.t.receipts, s.next)
      == s.workers[w].current.value.task.info.count
  {
    var r := Next(s, Statement(w, now, false, retry));
    RegistrationOpensLedger(s, w, now, retry);
    RunKeeps(r, actions, StockOf(s.next));
    hide Next;
    NothingPending(Run(r, actions).workers, StockOf(s.next));
  }

  /** Routing and order alone give this, for any accounts, stocks and registrations: in every
      reachable state, the row a purchase read is still the stored one when its unguarded DELETE
      or its UPDATE is next. The statement takes just what was asked, unless the low 32 bits of
      a wider stock are. */
  lemma ReadIsStillStored(s: System, actions: seq<Action>, w: nat)
    requires Inv(s, Rows)
    requires var r := Run(s, actions); w < |r.workers| && r.workers[w].current.Some?
    requires var j := Run(s, actions).workers[w].current.value; j.task.Buy? && (j.pc.Pay? || j.pc.Take?)
    ensures var r := Run(s, actions); var j := r.workers[w].current.value; var id := j.task.info.listId;
      && id in r.t.listings && r.t.listings[id] == j.row
      && (j.pc.Take? && (j.row.remaining == j.task.info.count <==> ToInt32(j.row.remaining) == j.task.info.count) ==>
            forall now, fault, retry :: var after := Next(r, Statement(w, now, fault, retry));
              after.t != r.t ==> L.Remaining(after.t, id) == j.row.remaining - j.task.info.count)
  {
    RunKeeps(s, actions, Rows);
  }

  // ---------------------------------------------------------------------------------------
  //  Starting
  // ---------------------------------------------------------------------------------------

  /** Any number of idle workers is where the results above start from. */
  lemma NewSystemIsSafe(t: Tables, next: int, n: nat, m: Measure)
    requires n > 0 && TablesInv(t, next, m)
    ensures Inv(NewSystem(t, next, n), m) && Drained(NewSystem(t, next, n))
  {
  }
}
