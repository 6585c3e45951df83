/** The auction database over whole runs: registrations and purchases on the write connections,
    each with its faults and its clock readings. What stays true of old listings, and what is
    conserved. */
module AuctionRuns {
  import opened Machine
  import opened ItemMessage
  import opened AuctionTables
  import opened AuctionService

  /** A connection between two tasks: whether autocommit is on, and the listings it has inserted
      and not committed. */
  datatype Conn = Conn(autoCommit: bool, open: map<int, Listing>)

  /** What is committed, the next listing id, and the connections. */
  datatype Database = Database(tables: Tables, nextListing: int, conns: seq<Conn>)

  datatype Event =
    | Registration(conn: nat, info: AuctionItemInfo, now: int, fault: Option<int>)
    | PurchaseOf(conn: nat, info: AuctionItemInfo, envs: nat -> Env, foundRows: bool)

  /** The tables as a connection sees them: what is committed and what it left open itself. */
  function Seen(d: Database, c: nat): Tables
    requires c < |d.conns|
  {
    d.tables.(listings := d.tables.listings + d.conns[c].open)
  }

  function View(d: Database, c: nat): Session
    requires c < |d.conns|
  {
    Session(Seen(d, c), d.tables, d.nextListing, d.conns[c].autoCommit)
  }

  /** The database once connection `c` is in state `s`. */
  function Back(d: Database, c: nat, s: Session): Database
    requires c < |d.conns|
  {
    var open := map id <- s.tables.listings | id !in s.durable.listings :: s.tables.listings[id];
    Database(s.durable, s.nextListing, d.conns[c := Conn(s.autoCommit, open)])
  }

  function Next(d: Database, e: Event): Database {
    if e.conn >= |d.conns| then d
    else match e
      case Registration(c, info, now, fault) =>
        if fault.Some? then d else Back(d, c, Registered(View(d, c), ListingFor(info, now)))
      case PurchaseOf(c, info, envs, foundRows) =>
        Back(d, c, PurchaseOutcome(View(d, c), info, envs, foundRows).after)
  }

  function Run(d: Database, events: seq<Event>): Database
    decreases |events|
  {
    if events == [] then d else Run(Next(d, events[0]), events[1..])
  }

  predicate Succeeds(d: Database, e: Event) {
    e.PurchaseOf? && e.conn < |d.conns| && PurchaseOutcome(View(d, e.conn), e.info, e.envs, e.foundRows).success
  }

  /** What the last attempt of a purchase works on: after a rollback, nothing is open. */
  function LastWorkedOn(d: Database, e: Event): Tables
    requires e.PurchaseOf? && e.conn < |d.conns|
  {
    WorkedOn(View(d, e.conn), 1, PurchaseOutcome(View(d, e.conn), e.info, e.envs, e.foundRows).attempts)
  }

  /** A successful purchase did exactly what one purchase does; any other leaves what is
      committed alone. Either way nothing stays open on its connection. */
  lemma PurchaseStep(d: Database, e: Event)
    requires e.PurchaseOf? && e.conn < |d.conns|
    ensures var r := Next(d, e);
      && r.nextListing == d.nextListing && |r.conns| == |d.conns|
      && r.conns == d.conns[e.conn := Conn(r.conns[e.conn].autoCommit, map[])]
      && (!Succeeds(d, e) ==> r.tables == d.tables)
      && (Succeeds(d, e) ==>
           && (exists now :: Buyable(LastWorkedOn(d, e), e.info, now, e.foundRows))
           && r.tables == Bought(LastWorkedOn(d, e), e.info))
  {
    AttemptsTrace(View(d, e.conn), e.info, e.envs, 1, e.foundRows);
    var o := PurchaseOutcome(View(d, e.conn), e.info, e.envs, e.foundRows);
    assert Succeeds(d, e) ==> Buyable(LastWorkedOn(d, e), e.info, e.envs(o.attempts).now, e.foundRows);
  }

  /** No receipt names a listing that does not exist yet. */
  predicate SalesOfHandedOut(t: Tables, next: int) {
    forall r <- t.receipts :: r.listingId < next
  }

  /** Ids are positive and have been handed out, what is open is open on one connection and not
      committed, and with autocommit on nothing is open. */
  predicate Proper(d: Database) {
    && IdsHandedOut(d.tables.listings, d.nextListing)
    && SalesOfHandedOut(d.tables, d.nextListing)
    && (forall c <- d.conns ::
          && IdsHandedOut(c.open, d.nextListing)
          && (c.autoCommit ==> c.open == map[])
          && forall id <- c.open :: id !in d.tables.listings)
    && forall i, j :: 0 <= i < j < |d.conns| ==> d.conns[i].open.Keys !! d.conns[j].open.Keys
  }

  /** A registration on a connection with autocommit on is committed; otherwise it stays open. */
  lemma RegistrationStep(d: Database, e: Event)
    requires e.Registration? && e.conn < |d.conns| && e.fault.None? && Proper(d)
    ensures var r, c, row := Next(d, e), d.conns[e.conn], ListingFor(e.info, e.now);
      && r.nextListing == d.nextListing + 1 && |r.conns| == |d.conns|
      && r.tables == (if c.autoCommit then d.tables.(listings := d.tables.listings[d.nextListing := row]) else d.tables)
      && r.conns == d.conns[e.conn := if c.autoCommit then c else Conn(false, c.open[d.nextListing := row])]
  {
    var c, row := d.conns[e.conn], ListingFor(e.info, e.now);
    assert c in d.conns;
    var s := Registered(View(d, e.conn), row);
    var open := map id <- s.tables.listings | id !in s.durable.listings :: s.tables.listings[id];
    if c.autoCommit {
      assert d.tables.listings + c.open == d.tables.listings;
      assert open == map[];
    } else {
      var expected := c.open[d.nextListing := row];
      assert s.durable.listings == d.tables.listings;
      assert s.tables.listings == (d.tables.listings + c.open)[d.nextListing := row];
      assert forall id :: id in open <==> id in expected;
      assert forall id <- open :: open[id] == expected[id];
      assert open == expected;
    }
  }

  lemma StepIsProper(d: Database, e: Event)
    requires Proper(d)
    ensures Proper(Next(d, e)) && d.nextListing <= Next(d, e).nextListing && |Next(d, e).conns| == |d.conns|
  {
    if e.conn < |d.conns| && (e.PurchaseOf? || e.fault.None?) {
      assert d.conns[e.conn] in d.conns;
      var r := Next(d, e);
      if e.PurchaseOf? {
        CommittedIds(d, e);
        PurchaseStep(d, e);
        var auto := r.conns[e.conn].autoCommit;
        hide Next;
        hide LastWorkedOn;
        forall c <- r.conns ensures c in d.conns || c == Conn(auto, map[]) {
        }
      } else {
        RegistrationStep(d, e);
        hide Next;
      }
    }
  }

  /** What a purchase commits was committed or left open on its connection. */
  lemma CommittedIds(d: Database, e: Event)
    requires e.PurchaseOf? && e.conn < |d.conns|
    ensures forall id <- Next(d, e).tables.listings :: id in d.tables.listings || id in d.conns[e.conn].open
  {
    PurchaseStep(d, e);
  }

  lemma {:induction false} RunIsProper(d: Database, events: seq<Event>)
    requires Proper(d)
    ensures Proper(Run(d, events)) && d.nextListing <= Run(d, events).nextListing && |Run(d, events).conns| == |d.conns|
    decreases |events|
  {
    if events != [] {
      StepIsProper(d, events[0]);
      RunIsProper(Next(d, events[0]), events[1..]);
    }
  }

  // ---------------------------------------------------------------------------------------
  //  Old listings only shrink
  // ---------------------------------------------------------------------------------------

  /** The row of a listing, committed or left open by some connection. */
  predicate Occurs(d: Database, id: int, row: Listing) {
    || (id in d.tables.listings && d.tables.listings[id] == row)
    || (exists c <- d.conns :: id in c.open && c.open[id] == row)
  }

  predicate Shrunk(before: Listing, after: Listing) {
    && after == before.(remaining := after.remaining)
    && (after.remaining == before.remaining || 0 < after.remaining < before.remaining)
  }

  lemma StepShrinks(d: Database, e: Event, id: int, after: Listing) returns (before: Listing)
    requires Proper(d) && id < d.nextListing && Occurs(Next(d, e), id, after)
    ensures Occurs(d, id, before) && Shrunk(before, after)
  {
    before := after;
    if e.conn < |d.conns| && (e.PurchaseOf? || e.fault.None?) {
      var r := Next(d, e);
      assert d.conns[e.conn] in d.conns;
      if e.PurchaseOf? {
        PurchaseStep(d, e);
        hide Next;
        forall c <- r.conns ensures c in d.conns || c.open == map[] {
        }
        var t := LastWorkedOn(d, e);
        if Succeeds(d, e) && id in r.tables.listings {
          before := t.listings[id];
        }
      } else {
        RegistrationStep(d, e);
        hide Next;
        var own := d.conns[e.conn].open;
        forall c <- r.conns ensures c in d.conns || (id in c.open ==> id in own && c.open[id] == own[id]) {
        }
      }
    }
  }

  /** Over every run, an id once gone stays gone, and a listing changes only by losing stock:
      each row found later comes from one that was there. */
  lemma {:induction false} RunShrinks(d: Database, events: seq<Event>, id: int, after: Listing)
    returns (before: Listing)
    requires Proper(d) && id < d.nextListing && Occurs(Run(d, events), id, after)
    ensures Occurs(d, id, before) && Shrunk(before, after)
    decreases |events|
  {
    if events == [] {
      before := after;
    } else {
      StepIsProper(d, events[0]);
      var mid := RunShrinks(Next(d, events[0]), events[1..], id, after);
      before := StepShrinks(d, events[0], id, mid);
    }
  }

  // ---------------------------------------------------------------------------------------
  //  Concrete surroundings
  // ---------------------------------------------------------------------------------------

  /** Every attempt at the same time and without a fault. */
  function QuietAt(now: int): nat -> Env {
    (_: nat) => Env(now, _ => None)
  }

  /** Nothing fails but the restore of autocommit. */
  const NO_RESTORE: nat -> Env := _ => Env(0, s => if s == RestoreAutoCommit then Some(ERR_OWN) else None)

  lemma QuietPurchase(d: Database, c: nat, info: AuctionItemInfo, now: int, foundRows: bool)
    requires c < |d.conns| && Buyable(Seen(d, c), info, now, foundRows)
    ensures var e := PurchaseOf(c, info, QuietAt(now), foundRows);
      && Succeeds(d, e) && LastWorkedOn(d, e) == Seen(d, c)
      && Next(d, e).tables == Bought(Seen(d, c), info)
      && PurchaseOutcome(View(d, c), info, QuietAt(now), foundRows).attempts == 1
  {
    CommitsExactlyWhen(Seen(d, c), info, QuietAt(now)(1), foundRows);
  }
}
