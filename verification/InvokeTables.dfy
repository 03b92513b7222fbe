/** The idempotency tables of de_databus/de_module.cpp: results of past invokes, the order in
    which they were cached, and the invokes in flight. Each method is one critical section
    under m_cap_lock. */
module InvokeTables {
  import opened Basics
  import opened Json

  /** What is sent back for an invoke, under the id its sender gave it; it always names the invoke it answers. */
  datatype Reply = Success(id: Id, data: Json) | Failure(id: Id, err: string)

  datatype Tables = Tables(results: map<Id, Reply>, order: seq<Id>, inflight: set<Id>)

  const CAPACITY := 64

  datatype Verdict = Replay(reply: Reply) | Ignore | Accept

  /** Lines 859-871: what a receipt of `id` meets. */
  function Meet(tb: Tables, id: Id): Verdict {
    if id in tb.results then Replay(tb.results[id])
    else if id in tb.inflight then Ignore
    else Accept
  }

  function Admit(tb: Tables, id: Id): Tables {
    if Meet(tb, id).Accept? then tb.(inflight := tb.inflight + {id}) else tb
  }

  /** Lines 810, 820 and 878. */
  function Leave(tb: Tables, id: Id): Tables {
    tb.(inflight := tb.inflight - {id})
  }

  /** Lines 748-752: drop from the front until the order fits. */
  function Trim(tb: Tables): Tables
    decreases |tb.order|
  {
    if |tb.order| <= CAPACITY then tb
    else Trim(tb.(results := tb.results - {tb.order[0]}, order := tb.order[1..]))
  }

  /** `cacheInvokeResult`. */
  function Store(tb: Tables, id: Id, reply: Reply): Tables {
    Trim(tb.(order := if id in tb.results then tb.order else tb.order + [id],
             results := tb.results[id := reply]))
  }

  // ----- the table invariant

  ghost predicate NoDuplicates(s: seq<Id>) {
    forall a, b :: 0 <= a < b < |s| ==> s[a] != s[b]
  }

  /** The order lists the cached ids, each once, and there are at most 64; a reply is filed under
      its own id. */
  ghost predicate TablesInv(tb: Tables) {
    && NoDuplicates(tb.order)
    && (forall id :: id in tb.order <==> id in tb.results)
    && |tb.order| <= CAPACITY
    && (forall id :: id in tb.results ==> tb.results[id].id == id)
  }

  /** Dropping the front of a duplicate-free order drops just that id. */
  lemma FrontDropped(order: seq<Id>, x: Id)
    requires order != [] && NoDuplicates(order)
    ensures NoDuplicates(order[1..]) && (x in order[1..] <==> x in order && x != order[0])
  {
    if x in order[1..] {
      var k :| 0 <= k < |order| - 1 && order[1..][k] == x;
      assert order[k + 1] == x;
    }
  }

  lemma TrimOnce(tb: Tables)
    requires |tb.order| == CAPACITY + 1
    ensures Trim(tb) == tb.(results := tb.results - {tb.order[0]}, order := tb.order[1..])
  {
    var cut := tb.(results := tb.results - {tb.order[0]}, order := tb.order[1..]);
    assert Trim(tb) == Trim(cut);
    assert Trim(cut) == cut;
  }

  /** The tables after storing a new id: the oldest entry makes room when the cache is full. */
  function Stored(tb: Tables, id: Id, reply: Reply): Tables {
    if id in tb.results then tb.(results := tb.results[id := reply])
    else if |tb.order| < CAPACITY then tb.(results := tb.results[id := reply], order := tb.order + [id])
    else tb.(results := tb.results[id := reply] - {tb.order[0]}, order := tb.order[1..] + [id])
  }

  /** Storing evicts at most the oldest entry, and only to make room for a new id. */
  lemma StoreMeaning(tb: Tables, id: Id, reply: Reply)
    requires TablesInv(tb)
    ensures Store(tb, id, reply) == Stored(tb, id, reply)
  {
    hide TablesInv;
    assert |tb.order| <= CAPACITY by { TablesFit(tb); }
    if id !in tb.results && |tb.order| == CAPACITY {
      var full := tb.(order := tb.order + [id], results := tb.results[id := reply]);
      TrimOnce(full);
      assert full.order[1..] == tb.order[1..] + [id] && full.order[0] == tb.order[0];
    }
  }

  lemma TablesFit(tb: Tables)
    requires TablesInv(tb)
    ensures |tb.order| <= CAPACITY
  {
  }

  lemma AppendNew(order: seq<Id>, id: Id, x: Id)
    requires NoDuplicates(order) && id !in order
    ensures NoDuplicates(order + [id]) && (x in order + [id] <==> x in order || x == id)
  {
  }

  lemma StoredInv(tb: Tables, id: Id, reply: Reply)
    requires TablesInv(tb) && reply.id == id
    ensures TablesInv(Stored(tb, id, reply))
    ensures id in Stored(tb, id, reply).results && Stored(tb, id, reply).results[id] == reply
  {
    var tb' := Stored(tb, id, reply);
    assert id in tb.order <==> id in tb.results;
    if id !in tb.results {
      var kept := if |tb.order| < CAPACITY then tb.order else tb.order[1..];
      forall x
        ensures x in tb'.order <==> x in tb'.results
        ensures NoDuplicates(tb'.order)
      {
        if |tb.order| == CAPACITY {
          FrontDropped(tb.order, x);
          FrontDropped(tb.order, id);
          assert tb.order[0] in tb.order;
        }
        hide NoDuplicates;
        AppendNew(kept, id, x);
      }
    }
  }

  class InvokeTable {
    var results: map<Id, Reply>
    var order: seq<Id>
    var inflight: set<Id>

    function Value(): Tables
      reads this
    {
      Tables(results, order, inflight)
    }

    constructor ()
      ensures Value() == Tables(map[], [], {})
    {
      results, order, inflight := map[], [], {};
    }

    /** Lines 856-872: one receipt. */
    method Receive(id: Id) returns (verdict: Verdict)
      modifies this
      ensures verdict == Meet(old(Value()), id) && Value() == Admit(old(Value()), id)
    {
      if id in results {
        return Replay(results[id]);
      }
      if id in inflight {
        return Ignore;
      }
      inflight := inflight + {id};
      return Accept;
    }

    /** First critical section of a finished invoke. */
    method Erase(id: Id)
      modifies this`inflight
      ensures Value() == Leave(old(Value()), id)
    {
      inflight := inflight - {id};
    }

    /** Second critical section: `cacheInvokeResult`. */
    method CacheInvokeResult(id: Id, reply: Reply)
      modifies this`results, this`order
      ensures Value() == Store(old(Value()), id, reply)
      ensures old(TablesInv(Value())) ==> Value() == Stored(old(Value()), id, reply)
    {
      ghost var before := Value();
      if id !in results { order := order + [id]; }
      results := results[id := reply];
      while |order| > CAPACITY
        invariant inflight == before.inflight
        invariant Trim(Value()) == Store(before, id, reply)
      {
        results := results - {order[0]};
        order := order[1..];
      }
      if TablesInv(before) {
        StoreMeaning(before, id, reply);
      }
    }
  }
}
