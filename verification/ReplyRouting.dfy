/** Session ids on the game server, and where the auction server's replies go. */
module ReplyRouting {
  import opened Machine

  /** A session object, told apart by identity. */
  type Client = nat

  /** The sessions by id. Entries are weak: one whose session is gone finds nobody. */
  datatype Table = Table(sessions: map<uint64, Client>, nextId: uint64)

  const EMPTY_TABLE := Table(map[], 1)

  function Entered(table: Table, session: Client): Table {
    Table(table.sessions[table.nextId := session], (table.nextId + 1) % TWO_64)
  }

  function Removed(table: Table, id: uint64): Table {
    table.(sessions := table.sessions - {id})
  }

  function Lookup(table: Table, id: uint64, alive: set<Client>): Option<Client> {
    if id in table.sessions && table.sessions[id] in alive then Some(table.sessions[id]) else None
  }

  class GameSessionManager {
    var sessions: map<uint64, Client>
    var nextId: uint64

    function View(): Table
      reads this
    {
      Table(sessions, nextId)
    }

    constructor ()
      ensures View() == EMPTY_TABLE
    {
      sessions, nextId := map[], 1;
    }

    method Register(session: Client) returns (id: uint64)
      modifies this
      ensures id == old(nextId) && View() == Entered(old(View()), session)
    {
      id := nextId;
      nextId := (nextId + 1) % TWO_64;
      sessions := sessions[id := session];
    }

    method Find(sessionId: uint64, alive: set<Client>) returns (session: Option<Client>)
      ensures session == Lookup(View(), sessionId, alive)
    {
      if sessionId !in sessions { return None; }
      if sessions[sessionId] !in alive { return None; }
      return Some(sessions[sessionId]);
    }

    method Unregister(sessionId: uint64)
      modifies this
      ensures View() == Removed(old(View()), sessionId)
    {
      sessions := sessions - {sessionId};
    }
  }

  // ---------------------------------------------------------------------------------------
  //  Replies
  // ---------------------------------------------------------------------------------------

  datatype Kind = AuctionListReply | ReceiptListReply | RegistReply | PurchaseReply

  /** The id a handler looks up: two of the handlers pass it through an `int`. */
  function LookedUp(kind: Kind, sessionId: int64): uint64 {
    match kind
    case RegistReply => ToUint64(ToInt32(sessionId))
    case PurchaseReply => ToUint64(ToInt32(sessionId))
    case _ => ToUint64(sessionId)
  }

  /** Where a reply goes. */
  datatype Target = ToCache | ToSession(receiver: Client) | ToNobody

  function TargetOf(table: Table, alive: set<Client>, kind: Kind, sessionId: int64): Target {
    if kind.AuctionListReply? && sessionId == 0 then ToCache
    else match Lookup(table, LookedUp(kind, sessionId), alive)
      case None => ToNobody
      case Some(receiver) => ToSession(receiver)
  }

  /** The handlers of the auction server's replies. */
  method HandleReply(manager: GameSessionManager, alive: set<Client>, kind: Kind, sessionId: int64)
    returns (target: Target)
    ensures target == TargetOf(manager.View(), alive, kind, sessionId)
  {
    if kind.AuctionListReply? && sessionId == 0 { return ToCache; }
    var session: Option<Client>;
    match kind {
      case AuctionListReply =>
        session := manager.Find(ToUint64(sessionId), alive);
      case ReceiptListReply =>
        session := manager.Find(ToUint64(sessionId), alive);
      case RegistReply =>
        var narrow := ToInt32(sessionId);
        session := manager.Find(ToUint64(narrow), alive);
      case PurchaseReply =>
        var narrow := ToInt32(sessionId);
        session := manager.Find(ToUint64(narrow), alive);
    }
    if session.None? { return ToNobody; }
    return ToSession(session.value);
  }

  datatype Request = Request(kind: Kind, sessionId: int64, asker: Option<Client>)

  /** A reply that reached a session, and who had asked. */
  datatype Delivery = Delivery(asker: Option<Client>, receiver: Client)

  /** The table, the sessions that exist, who was ever given which id, the requests under way
      (the asker None for the cache), what was delivered, and the askers the cache got replies of. */
  datatype Router = Router(
    table: Table, alive: set<Client>, owner: map<uint64, Client>,
    pending: seq<Request>, delivered: seq<Delivery>, cached: seq<Option<Client>>)

  const NO_SESSIONS := Router(EMPTY_TABLE, {}, map[], [], [], [])

  datatype Action =
    | Connect(session: Client)
    | Disconnect(id: uint64)
    | Destroy(session: Client)
    | Ask(kind: Kind, id: uint64)
    | CacheAsks
    | Reply(i: nat)

  function Next(r: Router, a: Action): Router {
    match a
    case Connect(session) =>
      r.(table := Entered(r.table, session), owner := r.owner[r.table.nextId := session], alive := r.alive + {session})
    case Disconnect(id) => r.(table := Removed(r.table, id))
    case Destroy(session) => r.(alive := r.alive - {session})
    case Ask(kind, id) =>
      if id in r.owner then r.(pending := r.pending + [Request(kind, ToInt64(id), Some(r.owner[id]))]) else r
    case CacheAsks => r.(pending := r.pending + [Request(AuctionListReply, 0, None)])
    case Reply(i) =>
      if i < |r.pending| then
        var q := r.pending[i];
        var t := r.(pending := r.pending[..i] + r.pending[i + 1..]);
        match TargetOf(r.table, r.alive, q.kind, q.sessionId)
        case ToCache => t.(cached := t.cached + [q.asker])
        case ToNobody => t
        case ToSession(receiver) => t.(delivered := t.delivered + [Delivery(q.asker, receiver)])
      else r
  }

  function Run(r: Router, actions: seq<Action>): Router
    decreases |actions|
  {
    if actions == [] then r else Run(Next(r, actions[0]), actions[1..])
  }

  /** The detour through `int` is harmless exactly for ids below 2^31. */
  lemma NarrowingExact(id: int64)
    requires id >= 0
    ensures LookedUp(PurchaseReply, id) == id <==> id < TWO_31
    ensures LookedUp(RegistReply, id) == id <==> id < TWO_31
  {
  }

  predicate FitsRequest(r: Router, q: Request) {
    && 0 <= q.sessionId < r.table.nextId
    && (q.sessionId == 0 <==> q.asker.None?)
    && (q.sessionId == 0 ==> q.kind.AuctionListReply?)
    && (q.sessionId > 0 ==> q.sessionId in r.owner && q.asker == Some(r.owner[q.sessionId]))
  }

  predicate Inv(r: Router) {
    && 1 <= r.table.nextId <= TWO_32 + 1
    && (forall id <- r.owner :: 1 <= id < r.table.nextId)
    && (forall id <- r.table.sessions :: id in r.owner && r.owner[id] == r.table.sessions[id])
    && (forall q <- r.pending :: FitsRequest(r, q))
    && (forall d <- r.delivered :: d.asker == Some(d.receiver))
    && (forall asker <- r.cached :: asker.None?)
  }

  /** Up to 2^32 sessions: a reply that goes through an `int` reaches nobody from id 2^31 on,
      since it is looked up under 0 or something that was negative; any other is looked up under
      the id it was asked with. */
  lemma TargetUpTo(r: Router, q: Request)
    requires Inv(r) && FitsRequest(r, q) && q.sessionId > 0
    ensures TargetOf(r.table, r.alive, q.kind, q.sessionId)
         == if (q.kind.RegistReply? || q.kind.PurchaseReply?) && q.sessionId >= TWO_31 then ToNobody
            else match Lookup(r.table, q.sessionId, r.alive)
              case None => ToNobody
              case Some(receiver) => ToSession(receiver)
  {
    NarrowingExact(q.sessionId);
    if q.sessionId >= TWO_31 {
      assert q.sessionId <= TWO_32;
      assert ToInt32(q.sessionId) == q.sessionId - TWO_32;
      assert LookedUp(PurchaseReply, q.sessionId) !in r.table.sessions;
      assert LookedUp(RegistReply, q.sessionId) !in r.table.sessions;
    }
  }

  lemma StepKeeps(r: Router, a: Action)
    requires Inv(r) && (a.Connect? ==> r.table.nextId <= TWO_32)
    ensures Inv(Next(r, a))
  {
    if a.Reply? && a.i < |r.pending| {
      ReplyKeeps(r, a.i);
    } else if a.Ask? && a.id in r.owner {
      assert ToInt64(a.id) == a.id;
    }
  }

  lemma ReplyKeeps(r: Router, i: nat)
    requires Inv(r) && i < |r.pending|
    ensures Inv(Next(r, Reply(i)))
  {
    var q := r.pending[i];
    var t := Next(r, Reply(i));
    assert q in r.pending;
    assert forall x <- t.pending :: x in r.pending;
    if q.sessionId > 0 {
      TargetUpTo(r, q);
    } else {
      assert TargetOf(r.table, r.alive, q.kind, q.sessionId) == ToCache;
    }
    hide TargetOf;
  }

  function Connects(actions: seq<Action>): nat {
    if actions == [] then 0 else (if actions[0].Connect? then 1 else 0) + Connects(actions[1..])
  }

  lemma {:induction false} RunKeeps(r: Router, actions: seq<Action>)
    requires Inv(r) && r.table.nextId + Connects(actions) <= TWO_32 + 1
    ensures Inv(Run(r, actions))
    decreases |actions|
  {
    if actions != [] {
      StepKeeps(r, actions[0]);
      assert Next(r, actions[0]).table.nextId == r.table.nextId + if actions[0].Connect? then 1 else 0;
      RunKeeps(Next(r, actions[0]), actions[1..]);
    }
  }

  /** Every reply that was delivered reached the session that asked, and what the cache got
      are the replies to its own requests. */
  predicate RoutedRight(r: Router) {
    && (forall d <- r.delivered :: d.asker == Some(d.receiver))
    && (forall asker <- r.cached :: asker.None?)
  }

  /** With at most 2^32 sessions, a reply reaches the session that asked or nobody. */
  lemma RepliesReachTheAsker(actions: seq<Action>)
    requires Connects(actions) <= TWO_32
    ensures RoutedRight(Run(NO_SESSIONS, actions))
  {
    RunKeeps(NO_SESSIONS, actions);
  }

  /** Past that, a purchase reply for a session goes to whoever holds the low 32 bits of its id. */
  lemma WideIdIsMisrouted(r: Router, i: nat, low: uint64)
    requires i < |r.pending| && r.pending[i].kind.PurchaseReply? && 0 < low < TWO_31
    requires r.pending[i].sessionId == low + TWO_32
    requires low in r.table.sessions && r.table.sessions[low] in r.alive
    ensures Next(r, Reply(i)).delivered == r.delivered + [Delivery(r.pending[i].asker, r.table.sessions[low])]
  {
    assert ToInt32(low + TWO_32) == low;
  }

  // ---------------------------------------------------------------------------------------
  //  Who gets nothing, and who does get it
  // ---------------------------------------------------------------------------------------

  /** Whatever happens after an id was unregistered, it is never entered again. */
  lemma {:induction false} StaysUnregistered(r: Router, id: uint64, actions: seq<Action>)
    requires id < r.table.nextId && id !in r.table.sessions && r.table.nextId + Connects(actions) < TWO_64
    ensures id !in Run(r, actions).table.sessions
    decreases |actions|
  {
    if actions != [] {
      StaysUnregistered(Next(r, actions[0]), id, actions[1..]);
    }
  }

  /** So after a disconnect, no reply to any request of that session reaches anybody: requests
      looked up under its id find nothing. */
  lemma UnregisteredGetsNothing(r: Router, id: uint64, actions: seq<Action>, kind: Kind, sessionId: int64)
    requires id < r.table.nextId && r.table.nextId + Connects(actions) < TWO_64
    requires 0 < sessionId && LookedUp(kind, sessionId) == id
    ensures var t := Run(Next(r, Disconnect(id)), actions); TargetOf(t.table, t.alive, kind, sessionId) == ToNobody
  {
    StaysUnregistered(Next(r, Disconnect(id)), id, actions);
  }

  /** A reply only ever goes to a session that exists and is entered, and a session that
      connected, was not unregistered and exists gets the replies to its id. */
  lemma ReceiverExactly(table: Table, alive: set<Client>, kind: Kind, sessionId: int64, receiver: Client)
    ensures TargetOf(table, alive, kind, sessionId) == ToSession(receiver) <==>
      && !(kind == AuctionListReply && sessionId == 0)
      && LookedUp(kind, sessionId) in table.sessions.Keys
      && table.sessions[LookedUp(kind, sessionId)] == receiver && receiver in alive
  {
  }

  /** The cache gets every reply to its own requests, and nobody else does. */
  lemma CacheGetsItsReplies(r: Router, i: nat)
    requires Inv(r) && i < |r.pending| && r.pending[i].asker.None?
    ensures Next(r, Reply(i)).cached == r.cached + [None] && Next(r, Reply(i)).delivered == r.delivered
  {
    assert r.pending[i] in r.pending;
  }

  // ---------------------------------------------------------------------------------------
  //  A run that gets there
  // ---------------------------------------------------------------------------------------

  /** Sessions 1 to `k` connect, in order. */
  function ConnectAll(k: nat): seq<Action> {
    if k == 0 then [] else ConnectAll(k - 1) + [Connect(k)]
  }

  lemma {:induction false} RunAppend(r: Router, a: seq<Action>, b: seq<Action>)
    ensures Run(r, a + b) == Run(Run(r, a), b)
    decreases |a|
  {
    if a == [] {
      assert a + b == b;
    } else {
      assert (a + b)[1..] == a[1..] + b;
      RunAppend(Next(r, a[0]), a[1..], b);
    }
  }

  lemma {:induction false} AllConnected(k: nat)
    requires k < TWO_64 - 1
    ensures var r := Run(NO_SESSIONS, ConnectAll(k));
      && r.table.nextId == k + 1 && r.pending == [] && r.delivered == []
      && forall i :: 1 <= i <= k ==>
           && i in r.table.sessions && r.table.sessions[i] == i && i in r.alive
           && i in r.owner && r.owner[i] == i
  {
    if k > 0 {
      AllConnected(k - 1);
      RunAppend(NO_SESSIONS, ConnectAll(k - 1), [Connect(k)]);
      var r := Run(NO_SESSIONS, ConnectAll(k - 1));
      assert [Connect(k)][1..] == [];
      assert Run(Next(r, Connect(k)), []) == Next(r, Connect(k));
      assert Run(r, [Connect(k)]) == Next(r, Connect(k));
    }
  }

  /** With 2^32 + 1 sessions connected, the reply to the last one's purchase reaches the first. */
  lemma LastReplyReachesFirst()
    ensures var wide := TWO_32 + 1;
      Run(NO_SESSIONS, ConnectAll(wide) + [Ask(PurchaseReply, wide), Reply(0)]).delivered == [Delivery(Some(wide), 1)]
  {
    var wide := TWO_32 + 1;
    var last := [Ask(PurchaseReply, wide), Reply(0)];
    AllConnected(wide);
    RunAppend(NO_SESSIONS, ConnectAll(wide), last);
    var r := Run(NO_SESSIONS, ConnectAll(wide));
    hide ConnectAll;
    var asked := Next(r, Ask(PurchaseReply, wide));
    assert asked.pending == [Request(PurchaseReply, wide, Some(wide))];
    assert 1 in r.table.sessions && r.table.sessions[1] == 1;
    WideIdIsMisrouted(asked, 0, 1);
    assert last[1..] == [Reply(0)] && [Reply(0)][1..] == [];
    hide Next;
    assert Run(asked, [Reply(0)]) == Run(Next(asked, Reply(0)), []);
  }

  lemma {:induction false} ConnectsAppend(a: seq<Action>, b: seq<Action>)
    ensures Connects(a + b) == Connects(a) + Connects(b)
  {
    if a == [] {
      assert a + b == b;
    } else {
      assert (a + b)[1..] == a[1..] + b;
      ConnectsAppend(a[1..], b);
    }
  }

  lemma {:induction false} ConnectsOfAll(k: nat)
    ensures Connects(ConnectAll(k)) == k
  {
    if k > 0 {
      ConnectsOfAll(k - 1);
      ConnectsAppend(ConnectAll(k - 1), [Connect(k)]);
      assert [Connect(k)][1..] == [];
    }
  }

  /** Routing is right in every run with up to `n` sessions exactly for `n` up to 2^32. */
  lemma RoutingRightExactlyUpTo(n: nat)
    ensures (forall actions :: Connects(actions) <= n ==> RoutedRight(Run(NO_SESSIONS, actions))) <==> n <= TWO_32
  {
    if n <= TWO_32 {
      forall actions | Connects(actions) <= n ensures RoutedRight(Run(NO_SESSIONS, actions)) {
        RepliesReachTheAsker(actions);
      }
    } else {
      var wide := TWO_32 + 1;
      var last := [Ask(PurchaseReply, wide), Reply(0)];
      var actions := ConnectAll(wide) + last;
      LastReplyReachesFirst();
      ConnectsOfAll(wide);
      ConnectsAppend(ConnectAll(wide), last);
      assert last[1..] == [Reply(0)] && [Reply(0)][1..] == [];
      assert Connects(last) == 0;
      hide ConnectAll;
      hide Run;
      var d := Delivery(Some(wide), 1);
      assert d in Run(NO_SESSIONS, actions).delivered;
      assert !RoutedRight(Run(NO_SESSIONS, actions));
    }
  }
}
