/** The invoke protocol of de_databus/de_module.cpp:771-934 under every interleaving of its
    critical sections: receipts of messages, and for every accepted one a ticket that is rejected
    or runs the handler, then leaves the inflight set, then caches its reply, then sends it. */
module InvokeProtocol {
  import opened Basics
  import opened InvokeTables
  import opened Json

  /** Where an accepted invoke stands. Erased is the gap between the two critical sections: the
      id has left inflight and its reply is not cached yet. */
  datatype Stage = Checking | Running | Erased(reply: Reply) | Cached(reply: Reply) | Sent(reply: Reply)

  datatype Ticket = Ticket(id: Id, stage: Stage, started: bool)

  /** The tables, the accepted invokes, and logs of what happened to ids. */
  datatype System = System(
    tb: Tables,
    tickets: seq<Ticket>,
    replayed: seq<Reply>,     // replies sent again on a repeated receipt
    gaps: seq<Id>,            // ids accepted while a ticket of theirs was in the gap
    regained: seq<Id>,        // other ids accepted again
    pushed: seq<Id>,          // ids in the order in which they entered the cache
    evicted: seq<Id>)         // ids in the order in which they left it

  datatype Step =
    | Receive(id: Id)
    | Reject(t: nat, err: string)
    | Start(t: nat)
    | Finish(t: nat, reply: Reply)
    | Expire(t: nat)
    | Cache(t: nat)
    | Send(t: nat)

  function Initial(): System {
    System(Tables(map[], [], {}), [], [], [], [], [], [])
  }

  predicate At(s: System, t: nat, stage: Stage) {
    t < |s.tickets| && s.tickets[t].stage == stage
  }

  function MoveTo(s: System, t: nat, stage: Stage): System
    requires t < |s.tickets|
  {
    s.(tickets := s.tickets[t := s.tickets[t].(stage := stage)])
  }

  ghost predicate InGap(s: System, id: Id) {
    exists t :: 0 <= t < |s.tickets| && s.tickets[t].id == id && s.tickets[t].stage.Erased?
  }

  /** The first critical section at the end of an invoke. */
  function Erase(s: System, t: nat, reply: Reply): System
    requires t < |s.tickets|
  {
    MoveTo(s, t, Erased(reply)).(tb := Leave(s.tb, s.tickets[t].id))
  }

  /** The ids that storing one more reply drops: at most the oldest. */
  function Dropped(tb: Tables, id: Id): seq<Id> {
    if id !in tb.results && |tb.order| >= CAPACITY then [tb.order[0]] else []
  }

  /** The second critical section. */
  function CacheReply(s: System, t: nat): System
    requires t < |s.tickets| && s.tickets[t].stage.Erased?
  {
    var id, reply := s.tickets[t].id, s.tickets[t].stage.reply;
    MoveTo(s, t, Cached(reply)).(
      tb := Store(s.tb, id, reply),
      pushed := if id in s.tb.results then s.pushed else s.pushed + [id],
      evicted := s.evicted + Dropped(s.tb, id))
  }

  /** One atomic step. A step that is not enabled changes nothing, so every sequence of steps is
      a run. */
  ghost function Next(s: System, step: Step): System {
    match step
    case Receive(id) =>
      if id.text == "" then s
      else if Meet(s.tb, id).Replay? then s.(replayed := s.replayed + [s.tb.results[id]])
      else if Meet(s.tb, id).Ignore? then s
      else s.(tb := Admit(s.tb, id), tickets := s.tickets + [Ticket(id, Checking, false)],
              gaps := if InGap(s, id) then s.gaps + [id] else s.gaps,
              regained := if !InGap(s, id) && id in TicketIds(s.tickets) then s.regained + [id] else s.regained)
    case Reject(t, err) =>
      if At(s, t, Checking) then Erase(s, t, Failure(s.tickets[t].id, err)) else s
    case Start(t) =>
      if At(s, t, Checking) then s.(tickets := s.tickets[t := s.tickets[t].(stage := Running, started := true)]) else s
    case Finish(t, reply) =>
      if At(s, t, Running) && reply.id == s.tickets[t].id then Erase(s, t, reply) else s
    case Expire(t) =>
      if At(s, t, Running) then Erase(s, t, Failure(s.tickets[t].id, "timeout")) else s
    case Cache(t) =>
      if t < |s.tickets| && s.tickets[t].stage.Erased? then CacheReply(s, t) else s
    case Send(t) =>
      if t < |s.tickets| && s.tickets[t].stage.Cached? then MoveTo(s, t, Sent(s.tickets[t].stage.reply)) else s
  }

  ghost function Execute(steps: seq<Step>): System {
    if steps == [] then Initial() else Next(Execute(steps[..|steps| - 1]), steps[|steps| - 1])
  }

  // ----- counting

  function Count(s: seq<Id>, id: Id): nat {
    if s == [] then 0 else Count(s[..|s| - 1], id) + (if s[|s| - 1] == id then 1 else 0)
  }

  function TicketIds(ts: seq<Ticket>): seq<Id> {
    seq(|ts|, t requires 0 <= t < |ts| => ts[t].id)
  }

  /** How often the handler was started for an id. */
  function Starts(ts: seq<Ticket>, id: Id): nat {
    if ts == [] then 0
    else Starts(ts[..|ts| - 1], id) + (if ts[|ts| - 1].id == id && ts[|ts| - 1].started then 1 else 0)
  }

  lemma CountSnoc(s: seq<Id>, x: Id, id: Id)
    ensures Count(s + [x], id) == Count(s, id) + (if x == id then 1 else 0)
  {
    assert (s + [x])[..|s|] == s;
  }

  lemma {:induction false} StartsBelowTickets(ts: seq<Ticket>, id: Id)
    ensures Starts(ts, id) <= Count(TicketIds(ts), id)
  {
    if ts != [] {
      StartsBelowTickets(ts[..|ts| - 1], id);
      assert TicketIds(ts)[..|ts| - 1] == TicketIds(ts[..|ts| - 1]);
    }
  }

  lemma {:induction false} CountPositive(s: seq<Id>, id: Id)
    ensures Count(s, id) > 0 <==> id in s
  {
    if s != [] {
      CountPositive(s[..|s| - 1], id);
    }
  }

  // ----- the invariant of every run

  ghost predicate Active(t: Ticket) {
    t.stage.Checking? || t.stage.Running?
  }

  /** In flight are exactly the ids with an active ticket, and no two active tickets share an id. */
  ghost predicate InflightInv(s: System) {
    && (forall t :: 0 <= t < |s.tickets| && Active(s.tickets[t]) ==> s.tickets[t].id in s.tb.inflight)
    && (forall id :: id in s.tb.inflight ==> HasActive(s, id))
    && (forall t, u :: 0 <= t < u < |s.tickets| && Active(s.tickets[t]) && Active(s.tickets[u]) ==>
         s.tickets[t].id != s.tickets[u].id)
  }

  ghost predicate HasActive(s: System, id: Id) {
    exists t :: 0 <= t < |s.tickets| && Active(s.tickets[t]) && s.tickets[t].id == id
  }

  ghost predicate HasCached(s: System, id: Id, reply: Reply) {
    exists t :: 0 <= t < |s.tickets| && s.tickets[t].id == id
      && (s.tickets[t].stage == Cached(reply) || s.tickets[t].stage == Sent(reply))
  }

  /** Replies answer their own id; every cached reply was produced by a ticket of that id; what
      has entered the cache and is not there any more has left it in order of entry. */
  ghost predicate CacheInv(s: System) {
    && TablesInv(s.tb)
    && (forall t :: 0 <= t < |s.tickets| && !Active(s.tickets[t]) ==> s.tickets[t].stage.reply.id == s.tickets[t].id)
    && (forall id :: id in s.tb.results ==> HasCached(s, id, s.tb.results[id]))
    && s.pushed == s.evicted + s.tb.order && (s.evicted != [] ==> |s.tb.order| == CAPACITY)
    && (forall t :: 0 <= t < |s.tickets| && (s.tickets[t].stage.Cached? || s.tickets[t].stage.Sent?) ==>
         s.tickets[t].id in s.pushed)
  }

  /** An id is accepted at most once, plus once for every receipt in its gap and every eviction;
      and when it is neither in flight, nor in a gap, nor cached, one of these has been paid. */
  ghost predicate BudgetInv(s: System, id: Id) {
    var accepted, paid := Count(TicketIds(s.tickets), id), Count(s.gaps, id) + Count(s.evicted, id);
    && accepted <= 1 + paid
    && (accepted > 0 && id !in s.tb.inflight && id !in s.tb.results && !InGap(s, id) ==> accepted <= paid)
  }

  ghost predicate Inv(s: System) {
    InflightInv(s) && CacheInv(s) && forall id :: BudgetInv(s, id)
  }

  // ----- a receipt that is accepted

  function Accepted(s: System, id: Id, inGap: bool): System {
    s.(tb := s.tb.(inflight := s.tb.inflight + {id}), tickets := s.tickets + [Ticket(id, Checking, false)],
       gaps := if inGap then s.gaps + [id] else s.gaps,
       regained := if !inGap && id in TicketIds(s.tickets) then s.regained + [id] else s.regained)
  }

  lemma AcceptInflight(s: System, id: Id, inGap: bool)
    requires InflightInv(s) && id !in s.tb.inflight
    ensures InflightInv(Accepted(s, id, inGap))
  {
    var s' := Accepted(s, id, inGap);
    forall x | x in s'.tb.inflight
      ensures HasActive(s', x)
    {
      if x == id {
        assert s'.tickets[|s.tickets|].id == x;
      } else {
        assert HasActive(s, x);
        var t :| 0 <= t < |s.tickets| && Active(s.tickets[t]) && s.tickets[t].id == x;
        assert s'.tickets[t] == s.tickets[t];
      }
    }
  }

  lemma AcceptCache(s: System, id: Id, inGap: bool)
    requires CacheInv(s)
    ensures CacheInv(Accepted(s, id, inGap))
  {
    var s' := Accepted(s, id, inGap);
    forall x | x in s'.tb.results
      ensures HasCached(s', x, s'.tb.results[x])
    {
      assert HasCached(s, x, s.tb.results[x]);
      var t :| 0 <= t < |s.tickets| && s.tickets[t].id == x
        && (s.tickets[t].stage == Cached(s.tb.results[x]) || s.tickets[t].stage == Sent(s.tb.results[x]));
      assert s'.tickets[t] == s.tickets[t];
    }
  }

  lemma AcceptBudget(s: System, id: Id, x: Id)
    requires BudgetInv(s, x) && Meet(s.tb, id).Accept?
    ensures BudgetInv(Accepted(s, id, InGap(s, id)), x)
  {
    var s' := Accepted(s, id, InGap(s, id));
    AcceptCounts(s, id, x);
    if x != id {
      GapKept(s, id, x);
    }
    hide InGap, Count, TicketIds;
  }

  lemma AcceptCounts(s: System, id: Id, x: Id)
    ensures
      var s' := Accepted(s, id, InGap(s, id));
      && Count(TicketIds(s'.tickets), x) == Count(TicketIds(s.tickets), x) + (if x == id then 1 else 0)
      && Count(s'.gaps, x) == Count(s.gaps, x) + (if x == id && InGap(s, id) then 1 else 0)
  {
    hide InGap;
    var s' := Accepted(s, id, InGap(s, id));
    assert TicketIds(s'.tickets) == TicketIds(s.tickets) + [id];
    CountSnoc(TicketIds(s.tickets), id, x);
    CountSnoc(s.gaps, id, x);
  }

  lemma GapKept(s: System, id: Id, x: Id)
    ensures InGap(s, x) ==> InGap(Accepted(s, id, InGap(s, id)), x)
  {
    if InGap(s, x) {
      var s' := Accepted(s, id, InGap(s, id));
      var t :| 0 <= t < |s.tickets| && s.tickets[t].id == x && s.tickets[t].stage.Erased?;
      assert s'.tickets[t] == s.tickets[t];
    }
  }

  // ----- moves of one ticket

  /** The ids of the tickets never change. */
  lemma SameIds(s: System, t: nat, ticket: Ticket)
    requires t < |s.tickets| && ticket.id == s.tickets[t].id
    ensures TicketIds(s.tickets[t := ticket]) == TicketIds(s.tickets)
  {
  }

  lemma EraseInv(s: System, t: nat, reply: Reply)
    requires Inv(s) && t < |s.tickets| && Active(s.tickets[t]) && reply.id == s.tickets[t].id
    ensures Inv(Erase(s, t, reply))
  {
    EraseInflight(s, t, reply);
    EraseCache(s, t, reply);
    forall id
      ensures BudgetInv(Erase(s, t, reply), id)
    {
      assert BudgetInv(s, id);
      EraseBudget(s, t, reply, id);
    }
  }

  lemma EraseInflight(s: System, t: nat, reply: Reply)
    requires InflightInv(s) && t < |s.tickets| && Active(s.tickets[t])
    ensures InflightInv(Erase(s, t, reply))
  {
    var s' := Erase(s, t, reply);
    forall x | x in s'.tb.inflight
      ensures HasActive(s', x)
    {
      assert HasActive(s, x);
      var u :| 0 <= u < |s.tickets| && Active(s.tickets[u]) && s.tickets[u].id == x;
      assert s'.tickets[u] == s.tickets[u];
    }
  }

  lemma EraseCache(s: System, t: nat, reply: Reply)
    requires CacheInv(s) && t < |s.tickets| && Active(s.tickets[t]) && reply.id == s.tickets[t].id
    ensures CacheInv(Erase(s, t, reply))
  {
    var s' := Erase(s, t, reply);
    forall x | x in s'.tb.results
      ensures HasCached(s', x, s'.tb.results[x])
    {
      assert HasCached(s, x, s.tb.results[x]);
      var u :| 0 <= u < |s.tickets| && s.tickets[u].id == x
        && (s.tickets[u].stage == Cached(s.tb.results[x]) || s.tickets[u].stage == Sent(s.tb.results[x]));
      assert s'.tickets[u] == s.tickets[u];
    }
  }

  lemma EraseBudget(s: System, t: nat, reply: Reply, id: Id)
    requires BudgetInv(s, id) && t < |s.tickets| && Active(s.tickets[t])
    ensures BudgetInv(Erase(s, t, reply), id)
  {
    var s' := Erase(s, t, reply);
    SameIds(s, t, s'.tickets[t]);
    if s.tickets[t].id == id {
      assert s'.tickets[t].stage.Erased?;
    } else if InGap(s, id) {
      var u :| 0 <= u < |s.tickets| && s.tickets[u].id == id && s.tickets[u].stage.Erased?;
      assert s'.tickets[u] == s.tickets[u];
    }
  }

  /** A move that keeps a ticket active, or keeps it cached, touches no invariant. */
  lemma QuietMove(s: System, t: nat, ticket: Ticket)
    requires Inv(s) && t < |s.tickets| && ticket.id == s.tickets[t].id
    requires if Active(s.tickets[t]) then Active(ticket)
             else s.tickets[t].stage.Cached? && ticket.stage == Sent(s.tickets[t].stage.reply)
    ensures Inv(s.(tickets := s.tickets[t := ticket]))
  {
    hide InflightInv, CacheInv, BudgetInv;
    QuietInflight(s, t, ticket);
    QuietCache(s, t, ticket);
    var s' := s.(tickets := s.tickets[t := ticket]);
    forall id
      ensures BudgetInv(s', id)
    {
      QuietBudget(s, t, ticket, id);
    }
  }

  lemma QuietInflight(s: System, t: nat, ticket: Ticket)
    requires InflightInv(s) && t < |s.tickets| && ticket.id == s.tickets[t].id
    requires Active(s.tickets[t]) == Active(ticket)
    ensures InflightInv(s.(tickets := s.tickets[t := ticket]))
  {
    hide Active;
    var s' := s.(tickets := s.tickets[t := ticket]);
    forall x | x in s'.tb.inflight
      ensures HasActive(s', x)
    {
      assert HasActive(s, x);
      var u :| 0 <= u < |s.tickets| && Active(s.tickets[u]) && s.tickets[u].id == x;
      assert Active(s'.tickets[u]);
    }
  }

  lemma QuietCache(s: System, t: nat, ticket: Ticket)
    requires CacheInv(s) && t < |s.tickets| && ticket.id == s.tickets[t].id
    requires if Active(s.tickets[t]) then Active(ticket)
             else s.tickets[t].stage.Cached? && ticket.stage == Sent(s.tickets[t].stage.reply)
    ensures CacheInv(s.(tickets := s.tickets[t := ticket]))
  {
    hide TablesInv;
    var s' := s.(tickets := s.tickets[t := ticket]);
    forall x | x in s'.tb.results
      ensures HasCached(s', x, s'.tb.results[x])
    {
      assert HasCached(s, x, s.tb.results[x]);
      var u :| 0 <= u < |s.tickets| && s.tickets[u].id == x
        && (s.tickets[u].stage == Cached(s.tb.results[x]) || s.tickets[u].stage == Sent(s.tb.results[x]));
      assert s'.tickets[u].stage == s.tickets[u].stage || s'.tickets[u].stage == Sent(s.tb.results[x]);
    }
  }

  lemma QuietBudget(s: System, t: nat, ticket: Ticket, id: Id)
    requires BudgetInv(s, id) && t < |s.tickets| && ticket.id == s.tickets[t].id
    requires if Active(s.tickets[t]) then Active(ticket)
             else s.tickets[t].stage.Cached? && ticket.stage == Sent(s.tickets[t].stage.reply)
    ensures BudgetInv(s.(tickets := s.tickets[t := ticket]), id)
  {
    var s' := s.(tickets := s.tickets[t := ticket]);
    SameIds(s, t, ticket);
    if InGap(s, id) {
      var u :| 0 <= u < |s.tickets| && s.tickets[u].id == id && s.tickets[u].stage.Erased?;
      assert s'.tickets[u] == s.tickets[u];
    }
  }

  // ----- caching a reply

  lemma CacheInflight(s: System, t: nat)
    requires InflightInv(s) && CacheInv(s) && t < |s.tickets| && s.tickets[t].stage.Erased?
    ensures InflightInv(CacheReply(s, t))
  {
    var s' := CacheReply(s, t);
    StoreMeaning(s.tb, s.tickets[t].id, s.tickets[t].stage.reply);
    hide Store, TablesInv, Dropped;
    forall x | x in s'.tb.inflight
      ensures HasActive(s', x)
    {
      assert HasActive(s, x);
      var u :| 0 <= u < |s.tickets| && Active(s.tickets[u]) && s.tickets[u].id == x;
      assert s'.tickets[u] == s.tickets[u];
    }
  }

  lemma CacheCache(s: System, t: nat)
    requires CacheInv(s) && t < |s.tickets| && s.tickets[t].stage.Erased?
    ensures CacheInv(CacheReply(s, t))
  {
    var s' := CacheReply(s, t);
    CachedTables(s, t);
    PushedHas(s, t);
    forall x | x in s'.tb.results ensures HasCached(s', x, s'.tb.results[x]) {
      CachedHas(s, t, x);
    }
    hide Store, TablesInv, Dropped, HasCached;
  }

  lemma CachedTables(s: System, t: nat)
    requires CacheInv(s) && t < |s.tickets| && s.tickets[t].stage.Erased?
    ensures var s' := CacheReply(s, t);
            && TablesInv(s'.tb) && s'.pushed == s'.evicted + s'.tb.order
            && (s'.evicted != [] ==> |s'.tb.order| == CAPACITY)
  {
    hide HasCached, Dropped;
    var id, reply := s.tickets[t].id, s.tickets[t].stage.reply;
    assert reply.id == id;
    StoreMeaning(s.tb, id, reply);
    StoredInv(s.tb, id, reply);
    CacheHistory(s, id, reply);
    hide Store, Stored, TablesInv;
  }

  lemma CachedHas(s: System, t: nat, x: Id)
    requires CacheInv(s) && t < |s.tickets| && s.tickets[t].stage.Erased? && x in CacheReply(s, t).tb.results
    ensures HasCached(CacheReply(s, t), x, CacheReply(s, t).tb.results[x])
  {
    var s' := CacheReply(s, t);
    var id, reply := s.tickets[t].id, s.tickets[t].stage.reply;
    StoreMeaning(s.tb, id, reply);
    hide Store, Dropped, TablesInv;
    if x == id {
      assert s'.tickets[t].id == id && s'.tickets[t].stage == Cached(reply);
      StoredLast(s.tb, id, reply);
    } else {
      assert HasCached(s, x, s.tb.results[x]);
      var u :| 0 <= u < |s.tickets| && s.tickets[u].id == x
        && (s.tickets[u].stage == Cached(s.tb.results[x]) || s.tickets[u].stage == Sent(s.tb.results[x]));
      assert s'.tickets[u] == s.tickets[u];
    }
  }

  lemma StoredLast(tb: Tables, id: Id, reply: Reply)
    ensures id in Stored(tb, id, reply).results ==> Stored(tb, id, reply).results[id] == reply
  {
  }

  lemma PushedHas(s: System, t: nat)
    requires CacheInv(s) && t < |s.tickets| && s.tickets[t].stage.Erased?
    ensures s.tickets[t].id in CacheReply(s, t).pushed
    ensures forall x :: x in s.pushed ==> x in CacheReply(s, t).pushed
  {
    hide Store;
    var id := s.tickets[t].id;
    if id in s.tb.results {
      assert id in s.tb.order;
    }
  }

  /** Entries leave the cache in the order in which they entered it. */
  lemma CacheHistory(s: System, id: Id, reply: Reply)
    requires TablesInv(s.tb) && s.pushed == s.evicted + s.tb.order && (s.evicted != [] ==> |s.tb.order| == CAPACITY)
    ensures (if id in s.tb.results then s.pushed else s.pushed + [id]) ==
            s.evicted + Dropped(s.tb, id) + Store(s.tb, id, reply).order
    ensures s.evicted + Dropped(s.tb, id) != [] ==> |Store(s.tb, id, reply).order| == CAPACITY
  {
    StoreMeaning(s.tb, id, reply);
    TablesFit(s.tb);
    hide Store, TablesInv;
    var e, o := s.evicted, s.tb.order;
    if id in s.tb.results {
      assert e + [] == e;
    } else if |o| < CAPACITY {
      assert e + [] == e;
      assert e + (o + [id]) == e + o + [id];
    } else {
      assert o == [o[0]] + o[1..];
      assert e + [o[0]] + (o[1..] + [id]) == e + o + [id];
    }
  }

  lemma CacheCounts(s: System, t: nat, x: Id)
    requires TablesInv(s.tb) && t < |s.tickets| && s.tickets[t].stage.Erased?
    ensures
      var s', id := CacheReply(s, t), s.tickets[t].id;
      && TicketIds(s'.tickets) == TicketIds(s.tickets) && s'.gaps == s.gaps && s'.tb.inflight == s.tb.inflight
      && id in s'.tb.results
      && Count(s.evicted, x) <= Count(s'.evicted, x)
      && (x in s.tb.results && x !in s'.tb.results ==> Count(s'.evicted, x) == Count(s.evicted, x) + 1)
  {
    var s' := CacheReply(s, t);
    var id, reply := s.tickets[t].id, s.tickets[t].stage.reply;
    StoreMeaning(s.tb, id, reply);
    FrontIsCached(s.tb);
    hide Store, TablesInv;
    SameIds(s, t, s'.tickets[t]);
    if id !in s.tb.results && |s.tb.order| >= CAPACITY {
      CountSnoc(s.evicted, s.tb.order[0], x);
    } else {
      assert s.evicted + [] == s.evicted;
    }
  }

  lemma FrontIsCached(tb: Tables)
    requires TablesInv(tb)
    ensures tb.order != [] ==> tb.order[0] in tb.results
  {
    if tb.order != [] {
      assert tb.order[0] in tb.order;
    }
  }

  lemma CacheBudget(s: System, t: nat, id: Id)
    requires BudgetInv(s, id) && CacheInv(s) && t < |s.tickets| && s.tickets[t].stage.Erased?
    ensures BudgetInv(CacheReply(s, t), id)
  {
    var s' := CacheReply(s, t);
    CacheCounts(s, t, id);
    if id != s.tickets[t].id && InGap(s, id) {
      var u :| 0 <= u < |s.tickets| && s.tickets[u].id == id && s.tickets[u].stage.Erased?;
      assert s'.tickets[u] == s.tickets[u];
      assert InGap(s', id);
    }
    hide CacheReply, Count, CacheInv, InGap;
  }

  lemma InitialInflight()
    ensures InflightInv(Initial())
  {
  }

  lemma InitialCache()
    ensures CacheInv(Initial())
  {
  }

  lemma InitialBudget(id: Id)
    ensures BudgetInv(Initial(), id)
  {
  }

  lemma InitialInv()
    ensures Inv(Initial())
  {
    hide InflightInv, CacheInv, BudgetInv;
    InitialInflight();
    InitialCache();
    forall id ensures BudgetInv(Initial(), id) {
      InitialBudget(id);
    }
  }

  lemma NextInv(s: System, step: Step)
    requires Inv(s)
    ensures Inv(Next(s, step))
  {
    hide InflightInv, CacheInv, BudgetInv, CacheReply;
    match step
    case Receive(id) =>
      if id.text != "" && Meet(s.tb, id).Accept? {
        AcceptInflight(s, id, InGap(s, id));
        AcceptCache(s, id, InGap(s, id));
        forall x
          ensures BudgetInv(Accepted(s, id, InGap(s, id)), x)
        {
          AcceptBudget(s, id, x);
        }
        assert Next(s, step) == Accepted(s, id, InGap(s, id));
      } else {
        ReplayQuiet(s, id);
      }
    case Reject(t, err) =>
      if At(s, t, Checking) { EraseInv(s, t, Failure(s.tickets[t].id, err)); }
    case Start(t) =>
      if At(s, t, Checking) { QuietMove(s, t, s.tickets[t].(stage := Running, started := true)); }
    case Finish(t, reply) =>
      if At(s, t, Running) && reply.id == s.tickets[t].id { EraseInv(s, t, reply); }
    case Expire(t) =>
      if At(s, t, Running) { EraseInv(s, t, Failure(s.tickets[t].id, "timeout")); }
    case Cache(t) =>
      if t < |s.tickets| && s.tickets[t].stage.Erased? {
        CacheInflight(s, t);
        CacheCache(s, t);
        forall id
          ensures BudgetInv(CacheReply(s, t), id)
        {
          CacheBudget(s, t, id);
        }
      }
    case Send(t) =>
      if t < |s.tickets| && s.tickets[t].stage.Cached? {
        QuietMove(s, t, s.tickets[t].(stage := Sent(s.tickets[t].stage.reply)));
      }
  }

  lemma ReplayQuiet(s: System, id: Id)
    requires Inv(s) && (id.text == "" || !Meet(s.tb, id).Accept?)
    ensures Inv(Next(s, Receive(id)))
  {
    hide Inv;
    LogKeepsInv(s, Next(s, Receive(id)).replayed);
  }

  /** No invariant looks at the replies sent again. */
  lemma LogKeepsInv(s: System, replayed: seq<Reply>)
    requires Inv(s)
    ensures Inv(s.(replayed := replayed))
  {
    hide InflightInv, CacheInv, BudgetInv;
    LogKeepsInflight(s, replayed);
    LogKeepsCache(s, replayed);
    forall id ensures BudgetInv(s.(replayed := replayed), id) {
      LogKeepsBudget(s, replayed, id);
    }
  }

  lemma LogKeepsInflight(s: System, replayed: seq<Reply>)
    requires InflightInv(s)
    ensures InflightInv(s.(replayed := replayed))
  {
    hide Active;
    assert forall x :: HasActive(s.(replayed := replayed), x) <==> HasActive(s, x);
  }

  lemma LogKeepsCache(s: System, replayed: seq<Reply>)
    requires CacheInv(s)
    ensures CacheInv(s.(replayed := replayed))
  {
    hide TablesInv, Active;
    assert forall x, reply :: HasCached(s.(replayed := replayed), x, reply) <==> HasCached(s, x, reply);
  }

  lemma LogKeepsBudget(s: System, replayed: seq<Reply>, id: Id)
    requires BudgetInv(s, id)
    ensures BudgetInv(s.(replayed := replayed), id)
  {
    hide Count;
    assert InGap(s.(replayed := replayed), id) <==> InGap(s, id);
  }

  /** The invariant holds in every reachable state, under every interleaving. */
  lemma {:induction false} ReachableInv(steps: seq<Step>)
    ensures Inv(Execute(steps))
  {
    if steps == [] {
      InitialInv();
    } else {
      hide Inv, Next;
      ReachableInv(steps[..|steps| - 1]);
      NextInv(Execute(steps[..|steps| - 1]), steps[|steps| - 1]);
    }
  }

  // ----- at most once

  /** Every acceptance of an id but its first one fell into a gap or followed an eviction. */
  ghost predicate Accounted(s: System, id: Id) {
    Count(TicketIds(s.tickets), id) ==
    (if id in TicketIds(s.tickets) then 1 else 0) + Count(s.gaps, id) + Count(s.regained, id)
  }

  lemma AcceptAccounted(s: System, id: Id, x: Id)
    requires Accounted(s, x)
    ensures Accounted(Accepted(s, id, InGap(s, id)), x)
  {
    hide Count, InGap;
    AcceptCounts(s, id, x);
    GapHasTicket(s, id);
    var s' := Accepted(s, id, InGap(s, id));
    CountSnoc(s.regained, id, x);
    assert TicketIds(s'.tickets) == TicketIds(s.tickets) + [id];
    hide TicketIds;
  }

  lemma GapHasTicket(s: System, id: Id)
    ensures InGap(s, id) ==> id in TicketIds(s.tickets)
  {
    if InGap(s, id) {
      var t :| 0 <= t < |s.tickets| && s.tickets[t].id == id && s.tickets[t].stage.Erased?;
      assert TicketIds(s.tickets)[t] == id;
    }
  }

  lemma NextAccounted(s: System, step: Step, x: Id)
    requires Accounted(s, x)
    ensures Accounted(Next(s, step), x)
  {
    var s' := Next(s, step);
    hide Count, InGap, Store;
    if step.Receive? {
      AcceptAccounted(s, step.id, x);
    } else {
      assert TicketIds(s'.tickets) == TicketIds(s.tickets);
    }
  }

  lemma NoneAccounted(id: Id)
    ensures Accounted(Initial(), id)
  {
  }

  lemma {:induction false} ReachableAccounted(steps: seq<Step>, id: Id)
    ensures Accounted(Execute(steps), id)
  {
    hide Accounted, Next;
    if steps == [] {
      NoneAccounted(id);
    } else {
      ReachableAccounted(steps[..|steps| - 1], id);
      NextAccounted(Execute(steps[..|steps| - 1]), steps[|steps| - 1], id);
    }
  }

  // ----- receipts in the gap

  /** Some receipt of the id in the run falls between the two critical sections of an invoke of it. */
  ghost predicate ReceiptInGap(steps: seq<Step>, id: Id) {
    exists k :: 0 <= k < |steps| && steps[k] == Receive(id) && InGap(Execute(steps[..k]), id)
  }

  lemma {:induction false} CountTwo(s: seq<Id>, id: Id, a: nat, b: nat)
    requires a < b < |s| && s[a] == id && s[b] == id
    ensures Count(s, id) >= 2
  {
    if b < |s| - 1 {
      CountTwo(s[..|s| - 1], id, a, b);
    } else {
      assert s[..|s| - 1][a] == id;
      CountPositive(s[..|s| - 1], id);
    }
  }

  lemma TwoTickets(s: System, id: Id, t: nat, u: nat)
    requires t < |s.tickets| && u < |s.tickets| && t != u && s.tickets[t].id == id && s.tickets[u].id == id
    ensures Count(TicketIds(s.tickets), id) >= 2
  {
    var ids := TicketIds(s.tickets);
    CountTwo(ids, id, if t < u then t else u, if t < u then u else t);
  }

  /** Whatever a receipt in the gap meets, there are two acceptances of its id after it: it is accepted
      itself, or another one was accepted before it in the same gap. */
  lemma GapReceiptDoubles(s: System, id: Id)
    requires Inv(s) && id.text != "" && InGap(s, id)
    ensures Count(TicketIds(Next(s, Receive(id)).tickets), id) >= 2
  {
    hide InflightInv, CacheInv, BudgetInv, Count, TicketIds;
    var s' := Next(s, Receive(id));
    var t :| 0 <= t < |s.tickets| && s.tickets[t].id == id && s.tickets[t].stage.Erased?;
    if id in s.tb.results {
      var u := CachedTicket(s, id);
      TwoTickets(s', id, t, u);
    } else if id in s.tb.inflight {
      var u := ActiveTicket(s, id);
      TwoTickets(s', id, t, u);
    } else {
      TwoTickets(s', id, t, |s.tickets|);
    }
  }

  lemma CachedTicket(s: System, id: Id) returns (u: nat)
    requires CacheInv(s) && id in s.tb.results
    ensures u < |s.tickets| && s.tickets[u].id == id && !s.tickets[u].stage.Erased?
  {
    hide TablesInv;
    assert HasCached(s, id, s.tb.results[id]);
    u :| 0 <= u < |s.tickets| && s.tickets[u].id == id && (s.tickets[u].stage.Cached? || s.tickets[u].stage.Sent?);
  }

  lemma ActiveTicket(s: System, id: Id) returns (u: nat)
    requires InflightInv(s) && id in s.tb.inflight
    ensures u < |s.tickets| && s.tickets[u].id == id && !s.tickets[u].stage.Erased?
  {
    assert HasActive(s, id);
    u :| 0 <= u < |s.tickets| && Active(s.tickets[u]) && s.tickets[u].id == id;
  }

  lemma CountNeverFalls(s: System, step: Step, id: Id)
    ensures Count(TicketIds(Next(s, step).tickets), id) >= Count(TicketIds(s.tickets), id)
  {
    var s' := Next(s, step);
    hide Count, InGap, Store;
    if step.Receive? {
      CountSnoc(TicketIds(s.tickets), step.id, id);
      assert s'.tickets == s.tickets || TicketIds(s'.tickets) == TicketIds(s.tickets) + [step.id];
    } else {
      assert TicketIds(s'.tickets) == TicketIds(s.tickets);
    }
  }

  /** A receipt in the gap is the last step of the run, or one of the steps before. */
  lemma ReceiptInGapSnoc(steps: seq<Step>, id: Id)
    requires steps != []
    ensures var front, last := steps[..|steps| - 1], steps[|steps| - 1];
            ReceiptInGap(steps, id) <==> ReceiptInGap(front, id) || (last == Receive(id) && InGap(Execute(front), id))
  {
    hide InGap, Execute;
    var front := steps[..|steps| - 1];
    assert forall k :: 0 <= k < |front| ==> steps[k] == front[k] && steps[..k] == front[..k];
    if ReceiptInGap(front, id) {
      var k :| 0 <= k < |front| && front[k] == Receive(id) && InGap(Execute(front[..k]), id);
      assert steps[k] == Receive(id) && steps[..k] == front[..k];
    }
  }

  lemma {:induction false} GapReceiptsCount(steps: seq<Step>, id: Id)
    requires ReceiptInGap(steps, id)
    ensures Count(TicketIds(Execute(steps).tickets), id) >= 2
  {
    var front, last := steps[..|steps| - 1], steps[|steps| - 1];
    ReceiptInGapSnoc(steps, id);
    hide ReceiptInGap, Count, TicketIds, Inv, InGap, Next;
    if ReceiptInGap(front, id) {
      GapReceiptsCount(front, id);
      CountNeverFalls(Execute(front), last, id);
    } else {
      ReachableInv(front);
      NamedInGap(front, id);
      GapReceiptDoubles(Execute(front), id);
    }
  }

  /** The empty id is never accepted, so it has no gap. */
  lemma NamedInGap(steps: seq<Step>, id: Id)
    requires InGap(Execute(steps), id)
    ensures id.text != ""
  {
    hide Execute;
    TicketsAreNamed(steps);
  }

  lemma {:induction false} TicketsAreNamed(steps: seq<Step>)
    ensures forall t :: 0 <= t < |Execute(steps).tickets| ==> Execute(steps).tickets[t].id.text != ""
  {
    if steps != [] {
      hide Store, InGap;
      TicketsAreNamed(steps[..|steps| - 1]);
    }
  }

  lemma {:induction false} LoggedGapsAreReceipts(steps: seq<Step>, id: Id)
    requires id in Execute(steps).gaps
    ensures ReceiptInGap(steps, id)
  {
    var front, last := steps[..|steps| - 1], steps[|steps| - 1];
    ReceiptInGapSnoc(steps, id);
    hide ReceiptInGap, Execute, InGap;
    NewGap(Execute(front), last, id);
    ExecuteSnoc(front, last);
    assert front + [last] == steps;
    if id in Execute(front).gaps { LoggedGapsAreReceipts(front, id); }
  }

  lemma NewGap(s: System, step: Step, id: Id)
    requires id in Next(s, step).gaps
    ensures id in s.gaps || (step == Receive(id) && InGap(s, id))
  {
    hide InGap, Store;
  }

  /** How often an id is accepted, and its handler may be started, in any run: once, and once more for
      each acceptance in a gap of the id and each acceptance after an eviction, of which there are no more
      than evictions. So an id whose reply was never evicted is accepted at most once if and only if no
      receipt of it, accepted or not, fell into the gap; and a receipt there means a second acceptance in
      every run. */
  lemma AtMostOnce(steps: seq<Step>, id: Id)
    ensures
      var s := Execute(steps);
      var accepted := Count(TicketIds(s.tickets), id);
      && Starts(s.tickets, id) <= accepted
      && (accepted > 0 ==> accepted == 1 + Count(s.gaps, id) + Count(s.regained, id))
      && Count(s.regained, id) <= Count(s.evicted, id)
      && (accepted <= 1 <==> id !in s.gaps && id !in s.regained)
      && (ReceiptInGap(steps, id) ==> accepted >= 2)
      && (accepted <= 1 <==> !ReceiptInGap(steps, id) && id !in s.regained)
      && (id !in s.evicted ==> (accepted <= 1 <==> !ReceiptInGap(steps, id)))
  {
    hide ReceiptInGap;
    Accounts(steps, id);
    var s := Execute(steps);
    hide Execute, Count, Starts, TicketIds;
    if ReceiptInGap(steps, id) { GapReceiptsCount(steps, id); }
    if id in s.gaps { LoggedGapsAreReceipts(steps, id); }
  }

  /** The counts alone. */
  lemma Accounts(steps: seq<Step>, id: Id)
    ensures
      var s := Execute(steps);
      var accepted := Count(TicketIds(s.tickets), id);
      && Starts(s.tickets, id) <= accepted
      && (accepted > 0 ==> accepted == 1 + Count(s.gaps, id) + Count(s.regained, id))
      && Count(s.regained, id) <= Count(s.evicted, id)
      && (accepted <= 1 <==> id !in s.gaps && id !in s.regained)
      && (id !in s.evicted ==> (accepted <= 1 <==> id !in s.gaps))
  {
    ReachableInv(steps);
    ReachableAccounted(steps, id);
    var s := Execute(steps);
    StartsBelowTickets(s.tickets, id);
    assert BudgetInv(s, id);
    CountPositive(TicketIds(s.tickets), id);
    CountPositive(s.gaps, id);
    CountPositive(s.regained, id);
    CountPositive(s.evicted, id);
    hide Execute, InflightInv, CacheInv, Count, Starts, TicketIds;
  }

  /** An id that has been accepted before is accepted again exactly when it is neither in flight
      nor cached, and then it is in a gap or its reply has been evicted. */
  lemma AcceptedAgain(steps: seq<Step>, id: Id)
    requires id.text != "" && exists t :: 0 <= t < |Execute(steps).tickets| && Execute(steps).tickets[t].id == id
    ensures
      var s, s' := Execute(steps), Execute(steps + [Receive(id)]);
      && (|s'.tickets| > |s.tickets| <==> id !in s.tb.results && id !in s.tb.inflight)
      && (|s'.tickets| > |s.tickets| ==> InGap(s, id) || id in s.evicted)
  {
    ExecuteSnoc(steps, Receive(id));
    ReachableInv(steps);
    var s := Execute(steps);
    hide Execute, TablesInv;
    var t :| 0 <= t < |s.tickets| && s.tickets[t].id == id;
    if Meet(s.tb, id).Accept? && !InGap(s, id) {
      CachedWasEvicted(s, t);
    }
  }

  lemma CachedWasEvicted(s: System, t: nat)
    requires InflightInv(s) && CacheInv(s) && t < |s.tickets|
    requires s.tickets[t].id !in s.tb.inflight && s.tickets[t].id !in s.tb.results && !s.tickets[t].stage.Erased?
    ensures s.tickets[t].id in s.evicted
  {
    var id := s.tickets[t].id;
    assert !Active(s.tickets[t]);
    assert id in s.pushed;
    assert id !in s.tb.order;
  }

  lemma ExecuteSnoc(steps: seq<Step>, step: Step)
    ensures Execute(steps + [step]) == Next(Execute(steps), step)
  {
    hide Next;
    assert (steps + [step])[..|steps|] == steps;
  }

  /** The gap is an escape: from every state with a ticket in the gap, a receipt of its id that
      is not in flight and not cached is accepted, and the handler can be started once more. */
  lemma {:induction false} GapAdmits(s: System, id: Id)
    requires id.text != "" && InGap(s, id) && id !in s.tb.inflight && id !in s.tb.results
    ensures
      var s2 := Next(Next(s, Receive(id)), Start(|s.tickets|));
      && Starts(s2.tickets, id) == Starts(s.tickets, id) + 1
      && s2.gaps == s.gaps + [id] && s2.evicted == s.evicted
  {
    var s2 := Next(Next(s, Receive(id)), Start(|s.tickets|));
    assert s2.tickets == s.tickets + [Ticket(id, Running, true)];
    assert s2.tickets[..|s.tickets|] == s.tickets;
  }

  /** A run in which the handler runs twice for one id although nothing was ever evicted. */
  lemma GapEscapes(id: Id)
    requires id.text != ""
    ensures
      var steps := [Receive(id), Start(0), Finish(0, Success(id, Null)), Receive(id), Start(1)];
      Starts(Execute(steps).tickets, id) == 2 && Execute(steps).evicted == []
  {
    var reply := Success(id, Null);
    var a := [Receive(id), Start(0), Finish(0, reply)];
    var s1 := System(Tables(map[], [], {id}), [Ticket(id, Checking, false)], [], [], [], [], []);
    assert !InGap(Initial(), id);
    assert Execute([]) == Initial();
    ExecuteSnoc([], Receive(id));
    assert [] + [Receive(id)] == [Receive(id)];
    assert Execute([Receive(id)]) == s1;
    ExecuteSnoc([Receive(id)], Start(0));
    assert [Receive(id)] + [Start(0)] == [Receive(id), Start(0)];
    ExecuteSnoc([Receive(id), Start(0)], Finish(0, reply));
    assert [Receive(id), Start(0)] + [Finish(0, reply)] == a;
    var s3 := Execute(a);
    assert s3 == System(Tables(map[], [], {}), [Ticket(id, Erased(reply), true)], [], [], [], [], []);
    assert Starts(s3.tickets, id) == 1;
    assert s3.tickets[0].stage.Erased?;
    ExecuteSnoc(a, Receive(id));
    ExecuteSnoc(a + [Receive(id)], Start(1));
    assert a + [Receive(id)] + [Start(1)] == [Receive(id), Start(0), Finish(0, reply), Receive(id), Start(1)];
    GapAdmits(s3, id);
  }

  // ----- the two critical sections fused into one

  /** Steps of a run in which a ticket caches its reply in the same critical section in which its
      id leaves inflight. */
  datatype Fused = One(step: Step) | RejectAndCache(t: nat, err: string) | FinishAndCache(t: nat, reply: Reply)
    | ExpireAndCache(t: nat)

  function Expand(f: Fused): seq<Step> {
    match f
    case One(step) => if step.Reject? || step.Finish? || step.Expire? then [] else [step]
    case RejectAndCache(t, err) => [Reject(t, err), Cache(t)]
    case FinishAndCache(t, reply) => [Finish(t, reply), Cache(t)]
    case ExpireAndCache(t) => [Expire(t), Cache(t)]
  }

  function ExpandAll(fs: seq<Fused>): seq<Step> {
    if fs == [] then [] else ExpandAll(fs[..|fs| - 1]) + Expand(fs[|fs| - 1])
  }

  ghost predicate NoGap(s: System) {
    s.gaps == [] && forall t :: 0 <= t < |s.tickets| ==> !s.tickets[t].stage.Erased?
  }

  lemma EraseThenCache(s: System, t: nat, reply: Reply)
    requires NoGap(s) && t < |s.tickets|
    ensures NoGap(Next(Erase(s, t, reply), Cache(t)))
  {
    hide Store;
  }

  lemma FusedStep(s: System, f: Fused)
    requires NoGap(s)
    ensures Expand(f) == [] || (|Expand(f)| == 1 && NoGap(Next(s, Expand(f)[0])))
         || (|Expand(f)| == 2 && NoGap(Next(Next(s, Expand(f)[0]), Expand(f)[1])))
  {
    hide Store;
    match f
    case One(step) =>
      if step.Receive? { assert !InGap(s, step.id); }
    case RejectAndCache(t, err) =>
      if At(s, t, Checking) { EraseThenCache(s, t, Failure(s.tickets[t].id, err)); }
    case FinishAndCache(t, reply) =>
      if At(s, t, Running) { EraseThenCache(s, t, reply); }
    case ExpireAndCache(t) =>
      if At(s, t, Running) { EraseThenCache(s, t, Failure(s.tickets[t].id, "timeout")); }
  }

  lemma ExpandAllSnoc(fs: seq<Fused>)
    requires fs != []
    ensures ExpandAll(fs) == ExpandAll(fs[..|fs| - 1]) + Expand(fs[|fs| - 1])
  {
  }

  /** Up to two more steps. */
  lemma ExecuteUpToTwo(steps: seq<Step>, more: seq<Step>)
    ensures more == [] ==> Execute(steps + more) == Execute(steps)
    ensures |more| == 1 ==> Execute(steps + more) == Next(Execute(steps), more[0])
    ensures |more| == 2 ==> Execute(steps + more) == Next(Next(Execute(steps), more[0]), more[1])
  {
    hide Execute, Next;
    if more == [] {
      assert steps + more == steps;
    } else if |more| == 1 {
      ExecuteSnoc(steps, more[0]);
      assert steps + more == steps + [more[0]];
    } else if |more| == 2 {
      ExecuteSnoc(steps, more[0]);
      ExecuteSnoc(steps + [more[0]], more[1]);
      assert steps + more == steps + [more[0]] + [more[1]];
    }
  }

  lemma NoGapAtFirst()
    ensures NoGap(Execute(ExpandAll([])))
  {
  }

  lemma {:induction false} FusedNoGap(fs: seq<Fused>)
    ensures NoGap(Execute(ExpandAll(fs)))
  {
    hide NoGap, Next, Expand, Execute, ExpandAll;
    if fs == [] {
      NoGapAtFirst();
    } else {
      var front, last := fs[..|fs| - 1], fs[|fs| - 1];
      FusedNoGap(front);
      FusedStep(Execute(ExpandAll(front)), last);
      ExpandAllSnoc(fs);
      ExecuteUpToTwo(ExpandAll(front), Expand(last));
    }
  }

  /** With one critical section instead of two, the handler is started once per id and once more
      for every eviction of its reply, whatever the interleaving. */
  lemma FusedAtMostOnce(fs: seq<Fused>, id: Id)
    ensures
      var s := Execute(ExpandAll(fs));
      Starts(s.tickets, id) <= 1 + Count(s.evicted, id)
  {
    hide Execute, Starts, TicketIds;
    FusedNoGap(fs);
    Accounts(ExpandAll(fs), id);
    assert Count([], id) == 0;
  }

  // ----- every accepted invoke is answered

  function Distance(stage: Stage): nat {
    match stage
    case Checking => 4
    case Running => 3
    case Erased(_) => 2
    case Cached(_) => 1
    case Sent(_) => 0
  }

  /** No step, of whatever ticket, moves a ticket back or changes its id. */
  lemma NeverBack(s: System, step: Step, t: nat)
    requires t < |s.tickets|
    ensures
      var s' := Next(s, step);
      && t < |s'.tickets| && s'.tickets[t].id == s.tickets[t].id
      && Distance(s'.tickets[t].stage) <= Distance(s.tickets[t].stage)
  {
    hide Store, InGap;
  }

  /** A ticket that has not answered yet can always take a step of its own, whatever the others do. */
  lemma AlwaysAble(s: System, t: nat) returns (step: Step)
    requires t < |s.tickets| && !s.tickets[t].stage.Sent?
    ensures
      var s' := Next(s, step);
      !step.Receive? && t < |s'.tickets| && Distance(s'.tickets[t].stage) < Distance(s.tickets[t].stage)
  {
    hide Store;
    match s.tickets[t].stage
    case Checking => step := Reject(t, "");
    case Running => step := Expire(t);
    case Erased(_) => step := Cache(t);
    case Cached(_) => step := Send(t);
  }

  /** The steps that end an invoke, and the reply each one ends it with. */
  predicate Ends(s: System, t: nat, step: Step, reply: Reply)
    requires t < |s.tickets|
  {
    match step
    case Reject(u, err) => u == t && At(s, t, Checking) && reply == Failure(s.tickets[t].id, err)
    case Finish(u, r) => u == t && At(s, t, Running) && r.id == s.tickets[t].id && reply == r
    case Expire(u) => u == t && At(s, t, Running) && reply == Failure(s.tickets[t].id, "timeout")
    case _ => false
  }

  /** The reject, the ready and the timeout path alike: the id leaves the inflight set, then its reply is
      cached and any receipt of the id meets it, then the ticket has sent it. */
  lemma EveryPathAnswers(s: System, t: nat, step: Step, reply: Reply)
    requires Inv(s) && t < |s.tickets| && Ends(s, t, step, reply)
    ensures
      var s1 := Next(s, step);
      var s2 := Next(s1, Cache(t));
      var s3 := Next(s2, Send(t));
      && At(s1, t, Erased(reply)) && s1.tb.inflight == s.tb.inflight - {s.tickets[t].id} &&
        s1.tb.results == s.tb.results
      && At(s2, t, Cached(reply)) && Meet(s2.tb, s.tickets[t].id) == Replay(reply)
      && At(s3, t, Sent(reply)) && s3.tb == s2.tb
  {
    EndsInErased(s, t, step, reply);
    EraseInv(s, t, reply);
    hide Ends, Inv;
    ErasedAnswers(Erase(s, t, reply), t);
  }

  lemma EndsInErased(s: System, t: nat, step: Step, reply: Reply)
    requires Inv(s) && t < |s.tickets| && Ends(s, t, step, reply)
    ensures Next(s, step) == Erase(s, t, reply) && Active(s.tickets[t]) && reply.id == s.tickets[t].id
  {
    hide Inv;
  }

  lemma ErasedAnswers(s: System, t: nat)
    requires Inv(s) && t < |s.tickets| && s.tickets[t].stage.Erased?
    ensures
      var reply := s.tickets[t].stage.reply;
      var s2 := Next(s, Cache(t));
      var s3 := Next(s2, Send(t));
      && At(s2, t, Cached(reply)) && Meet(s2.tb, s.tickets[t].id) == Replay(reply)
      && At(s3, t, Sent(reply)) && s3.tb == s2.tb
  {
    hide Inv, InflightInv, CacheInv, BudgetInv, TablesInv, CacheReply;
    var id, reply := s.tickets[t].id, s.tickets[t].stage.reply;
    ErasedMeans(s, t);
    CachedMeets(s, t);
    assert Next(s, Cache(t)) == CacheReply(s, t);
  }

  lemma ErasedMeans(s: System, t: nat)
    requires Inv(s) && t < |s.tickets| && s.tickets[t].stage.Erased?
    ensures TablesInv(s.tb) && s.tickets[t].stage.reply.id == s.tickets[t].id
  {
    hide InflightInv, BudgetInv, HasCached, TablesInv;
  }

  lemma CachedMeets(s: System, t: nat)
    requires TablesInv(s.tb) && t < |s.tickets| && s.tickets[t].stage.Erased? &&
      s.tickets[t].stage.reply.id == s.tickets[t].id
    ensures var reply := s.tickets[t].stage.reply; var s' := CacheReply(s, t);
            At(s', t, Cached(reply)) && Meet(s'.tb, s.tickets[t].id) == Replay(reply)
  {
    StoreMeaning(s.tb, s.tickets[t].id, s.tickets[t].stage.reply);
    StoredInv(s.tb, s.tickets[t].id, s.tickets[t].stage.reply);
    hide Store, Stored, TablesInv, Dropped;
  }

  /** What the tickets have still to do. */
  function Work(ts: seq<Ticket>): nat {
    if ts == [] then 0 else Work(ts[..|ts| - 1]) + Distance(ts[|ts| - 1].stage)
  }

  lemma {:induction false} WorkMoved(ts: seq<Ticket>, t: nat, ticket: Ticket)
    requires t < |ts|
    ensures Work(ts[t := ticket]) + Distance(ts[t].stage) == Work(ts) + Distance(ticket.stage)
  {
    hide Distance;
    var moved, last := ts[t := ticket], |ts| - 1;
    if t == last {
      assert moved[..last] == ts[..last];
    } else {
      assert moved[..last] == ts[..last][t := ticket];
      WorkMoved(ts[..last], t, ticket);
    }
  }

  lemma WorkAdded(ts: seq<Ticket>, ticket: Ticket)
    ensures Work(ts + [ticket]) == Work(ts) + Distance(ticket.stage)
  {
    assert (ts + [ticket])[..|ts|] == ts;
  }

  /** Is this a step of a ticket that does something? */
  ghost predicate Moves(s: System, step: Step) {
    !step.Receive? && Next(s, step).tickets != s.tickets
  }

  /** A step that does something for a ticket leaves less to do; a receipt adds at most one ticket's worth. */
  lemma StepLowersWork(s: System, step: Step)
    ensures Moves(s, step) ==> Work(Next(s, step).tickets) < Work(s.tickets)
    ensures step.Receive? ==>
      Work(Next(s, step).tickets) - Work(s.tickets) == 4 * (|Next(s, step).tickets| - |s.tickets|)
    ensures !step.Receive? ==> |Next(s, step).tickets| == |s.tickets|
  {
    hide Work, Store, InGap;
    var s' := Next(s, step);
    match step
    case Receive(id) => WorkAdded(s.tickets, Ticket(id, Checking, false));
    case Reject(t, _) => if t < |s.tickets| { WorkMoved(s.tickets, t, s'.tickets[t]); }
    case Start(t) => if t < |s.tickets| { WorkMoved(s.tickets, t, s'.tickets[t]); }
    case Finish(t, _) => if t < |s.tickets| { WorkMoved(s.tickets, t, s'.tickets[t]); }
    case Expire(t) => if t < |s.tickets| { WorkMoved(s.tickets, t, s'.tickets[t]); }
    case Cache(t) => if t < |s.tickets| { WorkMoved(s.tickets, t, s'.tickets[t]); }
    case Send(t) => if t < |s.tickets| { WorkMoved(s.tickets, t, s'.tickets[t]); }
  }

  /** How many steps of a run did something for a ticket. */
  ghost function MoveCount(steps: seq<Step>): nat {
    if steps == [] then 0
    else
      var front, last := steps[..|steps| - 1], steps[|steps| - 1];
      MoveCount(front) + (if Moves(Execute(front), last) then 1 else 0)
  }

  /** No run makes more than four such steps for each accepted invoke, counting those still to come. */
  lemma {:induction false} FourStepsEach(steps: seq<Step>)
    ensures MoveCount(steps) + Work(Execute(steps).tickets) <= 4 * |Execute(steps).tickets|
  {
    hide Next, Moves, Work;
    if steps == [] {
      assert Work([]) == 0 by { NoWork(); }
    } else {
      var front, last := steps[..|steps| - 1], steps[|steps| - 1];
      FourStepsEach(front);
      StepLowersWork(Execute(front), last);
      UnmovedTickets(Execute(front), last);
    }
  }

  lemma NoWork()
    ensures Work([]) == 0
  {
  }

  lemma UnmovedTickets(s: System, step: Step)
    ensures !step.Receive? && !Moves(s, step) ==> Next(s, step).tickets == s.tickets
    ensures Moves(s, step) ==> !step.Receive?
  {
    hide Next;
  }

  /** When no ticket can do anything any more, every accepted invoke has been sent a reply under its own id
      and nothing is in flight; with FourStepsEach, every run of the tickets ends so once receipts stop. */
  lemma QuietMeansAnswered(steps: seq<Step>)
    requires forall step :: !Moves(Execute(steps), step)
    ensures
      var s := Execute(steps);
      && s.tb.inflight == {}
      && forall t :: 0 <= t < |s.tickets| ==> s.tickets[t].stage.Sent? && s.tickets[t].stage.reply.id == s.tickets[t].id
  {
    var s := Execute(steps);
    hide Execute, Next;
    forall t | 0 <= t < |s.tickets| ensures s.tickets[t].stage.Sent? {
      AbleMoves(s, t);
    }
    AllAnswered(steps);
  }

  lemma AbleMoves(s: System, t: nat)
    requires t < |s.tickets|
    ensures s.tickets[t].stage.Sent? || exists step :: Moves(s, step)
  {
    hide Next;
    if !s.tickets[t].stage.Sent? {
      var step := AlwaysAble(s, t);
      assert Moves(s, step);
    }
  }

  /** Once every ticket has answered, nothing is in flight, and the replies are under the tickets' own ids. */
  lemma AllAnswered(steps: seq<Step>)
    requires forall t :: 0 <= t < |Execute(steps).tickets| ==> Execute(steps).tickets[t].stage.Sent?
    ensures Execute(steps).tb.inflight == {}
    ensures forall t :: 0 <= t < |Execute(steps).tickets| ==>
              Execute(steps).tickets[t].stage.reply.id == Execute(steps).tickets[t].id
  {
    ReachableInv(steps);
    var s := Execute(steps);
    hide Execute, TablesInv, BudgetInv;
    assert forall id :: !HasActive(s, id);
  }

  /** A receipt of a cached id sends the cached reply, which a ticket of that id produced, and
      changes nothing else. */
  lemma CachedIsReplayed(steps: seq<Step>, id: Id)
    requires id.text != "" && id in Execute(steps).tb.results
    ensures
      var s := Execute(steps);
      && Execute(steps + [Receive(id)]) == s.(replayed := s.replayed + [s.tb.results[id]])
      && s.tb.results[id].id == id && HasCached(s, id, s.tb.results[id])
  {
    ExecuteSnoc(steps, Receive(id));
    ReachableInv(steps);
    hide Execute, InflightInv, BudgetInv;
  }

  /** The ids cached last, at most as many as the cache has room for. */
  function LastPushed(s: System): seq<Id> {
    if |s.pushed| <= CAPACITY then s.pushed else s.pushed[|s.pushed| - CAPACITY..]
  }

  /** The cache in every reachable state: exactly the last 64 ids that entered it, or all of them while
      they are fewer, each once and each with a reply; those before them have left in order of entry. */
  lemma CacheIsFifo(steps: seq<Step>)
    ensures
      var s := Execute(steps);
      && CAPACITY == 64 && s.tb.order == LastPushed(s) && NoDuplicates(s.tb.order)
      && (forall id :: id in s.tb.results <==> id in LastPushed(s))
      && s.evicted == s.pushed[..|s.pushed| - |s.tb.order|]
  {
    ReachableInv(steps);
    hide Execute, InflightInv, BudgetInv;
  }

  /** A receipt is answered from the cache if and only if its id is among the last 64 that entered it. */
  lemma ReplayedIff(steps: seq<Step>, id: Id)
    requires id.text != ""
    ensures |Execute(steps + [Receive(id)]).replayed| == |Execute(steps).replayed| + 1 <==>
      id in LastPushed(Execute(steps))
  {
    ExecuteSnoc(steps, Receive(id));
    CacheIsFifo(steps);
    hide Execute, LastPushed, InGap;
  }
}
