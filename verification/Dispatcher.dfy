/** The dispatcher object itself: its fields, its loops, and the proof that each
    method does what the functions of Lifecycle say. */
module Dispatching {
  import opened Bytes
  import opened Outcomes
  import opened Acf
  import opened Request
  import opened Lifecycle
  import opened LifecycleProofs
  import opened DispatcherRuns
  import opened DispatcherLaws

  datatype ResponseError = UnknownTicket | NotYet | Unsuccessful(error: TicketError)

  lemma DoneShift(h: Handler, order: seq<nat>, m: Machine, id: nat)
    ensures var m' := RunOne(h, order, m, id); var n := RunOne(h, order, m.(done := []), id);
            m' == n.(done := m.done + n.done)
  {
    hide Perform;
    hide Clear;
    hide ClearedIds;
    if IsLive(m, id) && IsCancellation(m.tickets[id].action) {
      var ids := ClearedIds(order, m.tickets, SelectorOf(m.tickets[id].action), Some(id));
      assert m.done + [id] + ids == m.done + ([] + [id] + ids);
    } else {
      assert m.done + ([] + [id]) == m.done + [id];
      assert m.done + [] == m.done;
    }
  }

  lemma SubmitStep(h: Handler, s: System, requester: StreamId, req: Message, admitted: bool)
    ensures var t := Admit(requester, req, admitted, s.checkConfigured);
            Step(h, s, DispatcherRuns.Submit(requester, req, admitted)) ==
            if t.Ok? then s.(core := Submitted(s.core, t.value)) else s
  {
    hide Admit;
    hide Submitted;
  }

  lemma PurgedIds(s: Core)
    requires Inv(s)
    ensures Increasing(s.order) && forall x :: x in s.order ==> x in s.tickets
    ensures forall x :: x in ClearedIds(s.order, s.tickets, NonSafety, None) <==>
              x in s.tickets && Pending(s.tickets[x]) && !s.tickets[x].safety
  {
    hide ClearedIds;
    hide Attributed;
    hide TicketOk;
    ClearedIdsMembers(s.order, s.tickets, NonSafety, None);
  }

  /** Starting the queued tickets leaves the index as it was. */
  lemma StartedIndex(s: Core)
    requires Inv(s)
    ensures Increasing(s.order) && (forall x :: x in s.order <==> x in s.tickets)
    ensures (forall x :: x in s.order <==> x in StartAll(s.tickets)) && MachineOk(Before0(s))
  {
    hide Attributed;
    hide TicketOk;
    StartedOk(s);
  }

  predicate WaitsOn(t: Ticket, source: Word16) {
    t.state == Started && t.action.Triggered? && t.action.source == source
  }

  /** Some started ticket is waiting for `source`. */
  predicate WaitedOn(tickets: Tickets, ids: seq<nat>, source: Word16) {
    exists x :: x in ids && x in tickets && WaitsOn(tickets[x], source)
  }

  lemma WaitedOnNext(tickets: Tickets, ids: seq<nat>, id: nat, source: Word16)
    requires id in tickets
    ensures WaitedOn(tickets, ids + [id], source) <==> WaitedOn(tickets, ids, source) || WaitsOn(tickets[id], source)
  {
    hide WaitsOn;
    if WaitedOn(tickets, ids, source) {
      var x :| x in ids && x in tickets && WaitsOn(tickets[x], source);
      assert x in ids + [id];
    }
    assert id in ids + [id];
  }

  /** `left` is what older competitors leave of a source's count. */
  predicate Left(i: Inputs, tickets: Tickets, older: seq<nat>, source: Word16, left: int) {
    if Competing(i, tickets, older, source) < Count(i, source)
    then left == Count(i, source) - Competing(i, tickets, older, source)
    else left <= 0
  }

  lemma NoneReady(i: Inputs, tickets: Tickets)
    ensures ReadyIds(i, tickets, []) == [] && forall s :: Competing(i, tickets, [], s) == 0
  {
  }

  lemma ReadyNext(i: Inputs, tickets: Tickets, older: seq<nat>, id: nat, source: Word16)
    ensures ReadyIds(i, tickets, older + [id]) ==
            ReadyIds(i, tickets, older) + if IsReady(i, tickets, older, id) then [id] else []
    ensures Competing(i, tickets, older + [id], source) ==
            Competing(i, tickets, older, source) + if Competes(i, tickets, id, source) then 1 else 0
  {
    hide IsReady;
    hide Competes;
    assert (older + [id])[..|older|] == older;
  }

  class Dispatcher {
    const handler: Handler
    var tickets: Tickets
    var order: seq<nat>
    var nextId: nat
    var bank: Bank
    var log: seq<Effect>
    var checkConfigured: bool

    function View(): Core
      reads this
    {
      Core(order, tickets, nextId, bank, log)
    }

    ghost predicate Valid()
      reads this
    {
      Inv(View())
    }

    constructor (handler: Handler)
      ensures Valid() && System(View(), checkConfigured) == Fresh() && this.handler == handler
    {
      this.handler := handler;
      tickets, order, nextId, bank, log, checkConfigured := map[], [], 0, map[], [], false;
    }

    method SetSafeStateCheck(configured: bool)
      modifies this`checkConfigured
      ensures checkConfigured == configured
    {
      checkConfigured := configured;
    }

    /** Decodes a request into a queued ticket, or refuses it. */
    method Submit(requester: StreamId, req: Message, admitted: bool) returns (r: Result<nat, SubmitError>)
      requires Valid()
      modifies this`tickets, this`order, this`nextId
      ensures Valid()
      ensures System(View(), checkConfigured) ==
              Step(handler, old(System(View(), checkConfigured)), DispatcherRuns.Submit(requester, req, admitted))
      ensures var t := Admit(requester, req, admitted, checkConfigured);
              r == if t.Ok? then Ok(old(nextId)) else Err(t.error)
      ensures r == Err(AccessDenied) <==> !admitted
      ensures r.Err? && r.error.BadEnvelope? <==> admitted && CarriesEnvelope(req) && !Readable(req.body)
      ensures r == Err(SafeStateNotConfigured) <==>
                admitted && CarriesEnvelope(req) && !checkConfigured && exists a :: ReadsAs(req.body, a, true)
      ensures r.Err? ==> View() == old(View())
      ensures r.Ok? ==>
                && r.value == old(nextId) && nextId == old(nextId) + 1 && order == old(order) + [r.value]
                && r.value in tickets && tickets == old(tickets)[r.value := tickets[r.value]]
                && var t := tickets[r.value];
                   && t.requester == requester && t.original == req && t.state == Queued
                   && t.response == None && t.err == None
                   && (if CarriesEnvelope(req) then ReadsAs(req.body, t.action, t.safety)
                       else t.action == Plain(req.control, req.body) && !t.safety)
    {
      AdmitExactly(requester, req, admitted, checkConfigured);
      hide Inv;
      hide Step;
      hide DecodeEnvelope;
      hide IsEnvelope;
      hide ReadsAs;
      hide Readable;
      StepKeepsInv(handler, System(View(), checkConfigured), DispatcherRuns.Submit(requester, req, admitted));
      SubmitStep(handler, System(View(), checkConfigured), requester, req, admitted);
      if !admitted {
        return Err(AccessDenied);
      }
      var action, safety := Plain(req.control, req.body), false;
      if IsEnvelope(req) {
        var d := DecodeEnvelope(req.body);
        if d.Err? {
          return Err(BadEnvelope(d.error));
        }
        action, safety := d.value.0, d.value.1;
      }
      if safety && !checkConfigured {
        return Err(SafeStateNotConfigured);
      }
      var id := nextId;
      nextId := nextId + 1;
      tickets := tickets[id := Ticket(requester, req, action, safety, Queued, None, None)];
      order := order + [id];
      return Ok(id);
    }

    // ------------------------------------------------------------ the sweep

    method FinalizeWhere(err: TicketError, sel: Selector, except: Option<nat>) returns (cleared: seq<nat>)
      requires Increasing(order) && forall x :: x in order ==> x in tickets
      modifies this`tickets
      ensures tickets == Clear(order, old(tickets), sel, except, err)
      ensures cleared == ClearedIds(order, old(tickets), sel, except)
    {
      hide Picks;
      hide Clear;
      hide ClearedIds;
      cleared := [];
      ClearNothing(tickets, sel, except, err);
      for k := 0 to |order|
        invariant tickets == Clear(order[..k], old(tickets), sel, except, err)
        invariant cleared == ClearedIds(order[..k], old(tickets), sel, except)
      {
        var id := order[k];
        assert order[..k + 1] == order[..k] + [id];
        ClearNext(order[..k], old(tickets), sel, except, err, id);
        var t := tickets[id];
        if t.state != Finalized && except != Some(id) && Picks(sel, t) {
          tickets := tickets[id := t.(state := Finalized, err := Some(err))];
          cleared := cleared + [id];
        }
      }
      assert order[..|order|] == order;
    }

    method PurgeNonSafety() returns (purged: seq<nat>)
      requires Valid()
      modifies this`tickets
      ensures Valid() && View() == PurgedCore(old(View()))
      ensures forall x :: x in purged <==> x in old(tickets) && Pending(old(tickets)[x]) && !old(tickets)[x].safety
    {
      hide Inv;
      hide Clear;
      hide ClearedIds;
      hide Increasing;
      PurgeKeepsInv(View());
      PurgedIds(View());
      purged := FinalizeWhere(Purged, NonSafety, None);
    }

    // ------------------------------------------------------------ execution

    method RunSegments(id: nat, t: Ticket, segs: seq<Segment>)
      returns (responses: seq<ChainedResponse>, failure: Option<nat>)
      modifies this`log
      ensures ChainRun(responses, failure, log) == RunChain(handler, id, t, segs, old(log))
    {
      hide InnerMessage;
      responses, failure := [], None;
      for j := 0 to |segs|
        invariant failure.None?
        invariant var rest := RunChain(handler, id, t, segs[j..], log);
                  RunChain(handler, id, t, segs, old(log)) ==
                  ChainRun(responses + rest.responses, rest.failure, rest.log)
      {
        assert segs[j..][1..] == segs[j + 1..];
        var msg := InnerMessage(t, segs[j].control, segs[j].body);
        var reply := handler(log, t.requester, msg);
        ghost var rest := RunChain(handler, id, t, segs[j..], log);
        log := log + [Call(id, t.requester, msg)];
        if reply.Failed? {
          responses := responses + [ChainedResponse(true, [])];
          failure := Some(reply.code);
          return;
        }
        ghost var tail := RunChain(handler, id, t, segs[j + 1..], log);
        assert responses + ([ChainedResponse(false, reply.msg.body)] + tail.responses)
            == responses + [ChainedResponse(false, reply.msg.body)] + tail.responses;
        responses := responses + [ChainedResponse(false, reply.msg.body)];
      }
      assert responses + [] == responses;
    }

    /** The action of one executing ticket that is not a cancellation. */
    method Execute(id: nat, t: Ticket) returns (response: Option<Message>, err: Option<TicketError>)
      requires !IsCancellation(t.action)
      modifies this`bank, this`log
      ensures Outcome(response, err, bank, log) == Perform(handler, id, t, old(bank), old(log))
    {
      hide InnerMessage;
      hide ResponseFor;
      hide EncodeChainedResponse;
      hide EncodeConditionalResponse;
      hide RunChain;
      hide SaturatingAdd;
      if t.action.Compound? {
        var c := t.action.cond;
        var current := Get(bank, c.sequencer);
        if !Evaluate(c.op, current, c.operand) {
          return Some(ResponseFor(t, EncodeConditionalResponse(false, current, []))), None;
        }
        var value := SaturatingAdd(current, c.advance);
        bank := bank[c.sequencer := value];
        log := log + [Advance(id, c.sequencer, value)];
        var msg := InnerMessage(t, t.action.control, t.action.body);
        var reply := handler(log, t.requester, msg);
        log := log + [Call(id, t.requester, msg)];
        if reply.Failed? {
          return None, Some(HandlerFailed(reply.code));
        }
        return Some(ResponseFor(t, EncodeConditionalResponse(true, value, reply.msg.body))), None;
      } else if t.action.CompoundWait? {
        var c := t.action.cond;
        var current := Get(bank, c.sequencer);
        if !Evaluate(c.op, current, c.operand) {
          return Some(ResponseFor(t, EncodeConditionalResponse(false, current, []))), None;
        }
        var value := SaturatingAdd(current, c.advance);
        bank := bank[c.sequencer := value];
        log := log + [Advance(id, c.sequencer, value)];
        return Some(ResponseFor(t, EncodeConditionalResponse(true, value, []))), None;
      } else if t.action.Chained? {
        var responses, failure := RunSegments(id, t, t.action.segments);
        response := Some(ResponseFor(t, EncodeChainedResponse(responses, |t.action.segments|)));
        err := if failure.Some? then Some(ChainFailed(failure.value)) else None;
      } else {
        // Plain, Triggered and Timed: one handler call, its answer verbatim.
        var msg := InnerMessage(t, t.action.control, t.action.body);
        var reply := handler(log, t.requester, msg);
        log := log + [Call(id, t.requester, msg)];
        if reply.Failed? {
          return Some(reply.msg), Some(HandlerFailed(reply.code));
        }
        return Some(reply.msg), None;
      }
    }

    /** One turn of the batch: skip, or execute and finalize. */
    method RunTicket(id: nat) returns (finalized: seq<nat>)
      requires Increasing(order) && (forall x :: x in order <==> x in tickets) && id in tickets
      modifies this`tickets, this`bank, this`log
      ensures Machine(tickets, bank, log, finalized) ==
              RunOne(handler, order, Machine(old(tickets), old(bank), old(log), []), id)
    {
      hide Perform;
      hide ClearedIds;
      hide ResponseFor;
      hide EncodeCancelResponse;
      hide Picks;
      var t := tickets[id];
      if t.state == Finalized {
        return [];
      }
      tickets := tickets[id := t.(state := Executing)];
      if IsCancellation(t.action) {
        ghost var executing := tickets;
        var sel := SelectorOf(t.action);
        var cancelled := FinalizeWhere(Cancelled, sel, Some(id));
        var response := ResponseFor(t, EncodeCancelResponse(|cancelled|));
        ExecutingIsExempt(order, old(tickets), id, sel, t.(state := Finalized, response := Some(response)));
        tickets := tickets[id := t.(state := Finalized, response := Some(response))];
        finalized := [id] + cancelled;
        assert [] + [id] + cancelled == finalized;
      } else {
        var response, err := Execute(id, t);
        tickets := tickets[id := t.(state := Finalized, response := response, err := err)];
        finalized := [id];
        assert [] + [id] == finalized;
      }
    }

    // ----------------------------------------------------------------- pump

    method StartQueued()
      requires forall x :: x in order <==> x in tickets
      modifies this`tickets
      ensures tickets == StartAll(old(tickets))
    {
      for k := 0 to |order|
        invariant tickets == map x | x in old(tickets) ::
                    if x in order[..k] && old(tickets)[x].state == Queued then old(tickets)[x].(state := Started)
                    else old(tickets)[x]
      {
        var id := order[k];
        assert order[..k + 1] == order[..k] + [id];
        if tickets[id].state == Queued {
          tickets := tickets[id := tickets[id].(state := Started)];
        }
      }
      assert order[..|order|] == order;
    }

    /** Asks every source a started ticket waits on for its count, each once. */
    method PollSources(i: Inputs) returns (available: map<Word16, int>, polled: seq<Word16>)
      requires forall x :: x in order ==> x in tickets
      ensures forall s :: s in available ==> available[s] == Count(i, s)
      ensures forall s :: s in available <==> WaitedOn(tickets, order, s)
      ensures forall s :: s in polled <==> s in available && s in i.counts
      ensures forall a, b :: 0 <= a < b < |polled| ==> polled[a] != polled[b]
    {
      available, polled := map[], [];
      for k := 0 to |order|
        invariant forall s :: s in available ==> available[s] == Count(i, s)
        invariant forall s :: s in available <==> WaitedOn(tickets, order[..k], s)
        invariant forall s :: s in polled <==> s in available && s in i.counts
        invariant forall a, b :: 0 <= a < b < |polled| ==> polled[a] != polled[b]
      {
        assert order[..k + 1] == order[..k] + [order[k]];
        var t := tickets[order[k]];
        forall s: Word16
          ensures WaitedOn(tickets, order[..k + 1], s) <==> WaitedOn(tickets, order[..k], s) || WaitsOn(t, s)
        {
          WaitedOnNext(tickets, order[..k], order[k], s);
        }
        hide WaitedOn;
        if t.state == Started && t.action.Triggered? && t.action.source !in available {
          var source := t.action.source;
          if source in i.counts {
            polled := polled + [source];
            available := available[source := i.counts[source]];
          } else {
            available := available[source := 0];
          }
        }
      }
      assert order[..|order|] == order;
    }

    method CollectReady(i: Inputs, counts: map<Word16, int>) returns (ready: seq<nat>)
      requires forall x :: x in order ==> x in tickets
      requires forall s :: s in counts ==> counts[s] == Count(i, s)
      requires forall s :: s in counts <==> WaitedOn(tickets, order, s)
      ensures ready == ReadyIds(i, tickets, order)
    {
      hide Count;
      hide GateOpen;
      hide Competing;
      hide ReadyIds;
      var available := counts;
      ready := [];
      NoneReady(i, tickets);
      for k := 0 to |order|
        invariant ready == ReadyIds(i, tickets, order[..k])
        invariant available.Keys == counts.Keys
        invariant forall s :: s in available ==> Left(i, tickets, order[..k], s, available[s])
      {
        var id := order[k];
        assert order[..k + 1] == order[..k] + [id];
        forall s | s in available
          ensures Competing(i, tickets, order[..k + 1], s) ==
                  Competing(i, tickets, order[..k], s) + if Competes(i, tickets, id, s) then 1 else 0
        {
          ReadyNext(i, tickets, order[..k], id, s);
        }
        ReadyNext(i, tickets, order[..k], id, 0);
        var t := tickets[id];
        if t.state == Started && GateOpen(i, t) {
          if t.action.Triggered? {
            var source := t.action.source;
            assert WaitsOn(t, source) && id in order;
            if available[source] > 0 {
              available := available[source := available[source] - 1];
              ready := ready + [id];
            }
          } else if t.action.Timed? {
            if i.now >= t.action.at {
              ready := ready + [id];
            }
          } else {
            ready := ready + [id];
          }
        }
      }
      assert order[..|order|] == order;
    }

    /** A stable sort by rank. */
    method SortByRank(ready: seq<nat>) returns (sorted: seq<nat>)
      requires forall x :: x in ready ==> x in tickets
      ensures sorted == Schedule(tickets, ready)
    {
      hide Priority;
      hide Insert;
      sorted := [];
      for k := 0 to |ready|
        invariant forall x :: x in ready[..k] ==> x in tickets
        invariant sorted == Schedule(tickets, ready[..k])
      {
        var id := ready[k];
        assert ready[..k + 1][..k] == ready[..k];
        assert id in ready;
        assert forall x :: x in ready[..k + 1] ==> x in ready;
        var p := |sorted|;
        while p > 0 && Priority(tickets[id].action) < Priority(tickets[sorted[p - 1]].action)
          invariant 0 <= p <= |sorted|
          invariant forall q :: p <= q < |sorted| ==> Priority(tickets[id].action) < Priority(tickets[sorted[q]].action)
        {
          p := p - 1;
        }
        InsertPosition(tickets, sorted, id, p);
        sorted := sorted[..p] + [id] + sorted[p..];
      }
      assert ready[..|ready|] == ready;
    }

    /** The execution loop, in the order given. */
    method RunBatch(batch: seq<nat>) returns (finalized: seq<nat>)
      requires Increasing(order) && (forall x :: x in order <==> x in tickets)
      requires MachineOk(Machine(tickets, bank, log, [])) && forall x :: x in batch ==> x in tickets
      modifies this`tickets, this`bank, this`log
      ensures Machine(tickets, bank, log, finalized) ==
              RunAll(handler, order, Machine(old(tickets), old(bank), old(log), []), batch)
    {
      hide RunOne;
      hide MachineOk;
      hide Increasing;
      ghost var m0 := Machine(tickets, bank, log, []);
      finalized := [];
      for k := 0 to |batch|
        invariant Machine(tickets, bank, log, finalized) == RunAll(handler, order, m0, batch[..k])
        invariant forall x :: x in order <==> x in tickets
      {
        assert batch[..k + 1][..k] == batch[..k];
        ghost var m := Machine(tickets, bank, log, finalized);
        DoneShift(handler, order, m, batch[k]);
        BatchKeepsKeys(handler, order, m0, batch[..k + 1]);
        assert batch[k] in batch;
        var more := RunTicket(batch[k]);
        finalized := finalized + more;
      }
      assert batch[..|batch|] == batch;
    }

    /** Start, poll, collect, sort and run: the dispatcher after a Pump is the
        one the reference functions describe, and the ids it returns are theirs. */
    method Pump(now: Word64, counts: map<Word16, int>, inSafeState: StreamId -> bool)
      returns (finalized: seq<nat>, polled: seq<Word16>)
      requires Valid()
      modifies this`tickets, this`bank, this`log
      ensures Valid()
      ensures var i := Inputs(now, counts, checkConfigured, inSafeState);
              View() == Pumped(handler, old(View()), i) && finalized == PumpMachine(handler, old(View()), i).done
      ensures forall s :: s in polled <==> s in counts && WaitedOn(StartAll(old(tickets)), order, s)
      ensures forall a, b :: 0 <= a < b < |polled| ==> polled[a] != polled[b]
    {
      hide Inv;
      hide RunAll;
      hide Schedule;
      hide ReadyIds;
      hide StartAll;
      hide WaitedOn;
      hide Increasing;
      hide MachineOk;
      ghost var before := View();
      var i := Inputs(now, counts, checkConfigured, inSafeState);
      StartedIndex(before);
      StartQueued();
      var available;
      available, polled := PollSources(i);
      var ready := CollectReady(i, available);
      var batch := SortByRank(ready);
      assert batch == Batch(before, i);
      finalized := RunBatch(batch);
      PumpKeepsInv(handler, before, i);
    }

    // -------------------------------------------------------------- queries

    /** The ticket's response and error, as they are, together. */
    method Response(id: nat) returns (response: Option<Message>, err: Option<ResponseError>)
      ensures id !in tickets ==> response == None && err == Some(UnknownTicket)
      ensures id in tickets && Pending(tickets[id]) ==> response == None && err == Some(NotYet)
      ensures id in tickets && !Pending(tickets[id]) ==> response == tickets[id].response
      ensures id in tickets && !Pending(tickets[id]) ==>
                err == if tickets[id].err.Some? then Some(Unsuccessful(tickets[id].err.value)) else None
    {
      if id !in tickets {
        return None, Some(UnknownTicket);
      }
      var t := tickets[id];
      if t.state != Finalized {
        return None, Some(NotYet);
      }
      return t.response, if t.err.Some? then Some(Unsuccessful(t.err.value)) else None;
    }

    method RemoveFromOrder(id: nat)
      modifies this`order
      ensures order == Without(old(order), id)
    {
      hide Without;
      for k := 0 to |order|
        invariant order == old(order) && id !in order[..k]
      {
        if order[k] == id {
          WithoutAt(order, id, k);
          order := order[..k] + order[k + 1..];
          return;
        }
        assert order[..k + 1] == order[..k] + [order[k]];
      }
      assert order[..|order|] == order;
      WithoutAbsent(order, id);
    }

    /** Drops a finalized ticket; anything else is left alone. */
    method Forget(id: nat)
      requires Valid()
      modifies this`tickets, this`order
      ensures Valid() && View() == Forgotten(old(View()), id)
      ensures if id in old(tickets) && old(tickets)[id].state == Finalized
              then tickets == old(tickets) - {id}
              else tickets == old(tickets) && order == old(order)
    {
      ForgetKeepsInv(View(), id);
      hide Inv;
      hide Without;
      if id in tickets && tickets[id].state == Finalized {
        tickets := tickets - {id};
        RemoveFromOrder(id);
      }
      assert View() == Forgotten(old(View()), id);
    }

    /** How many tickets are still pending. */
    method CountPending() returns (n: nat)
      requires Valid()
      ensures n == |set x | x in tickets && Pending(tickets[x])|
    {
      hide TicketOk;
      hide Attributed;
      hide Pending;
      n := 0;
      ghost var seen: set<nat> := {};
      for k := 0 to |order|
        invariant seen == set x | x in order[..k] && x in tickets && Pending(tickets[x])
        invariant n == |seen|
      {
        assert order[..k + 1] == order[..k] + [order[k]];
        if Pending(tickets[order[k]]) {
          assert order[k] !in order[..k];
          seen := seen + {order[k]};
          n := n + 1;
        }
      }
      assert seen == set x | x in tickets && Pending(tickets[x]);
    }
  }

  lemma ClearNothing(tickets: Tickets, sel: Selector, except: Option<nat>, err: TicketError)
    ensures Clear([], tickets, sel, except, err) == tickets
    ensures ClearedIds([], tickets, sel, except) == []
  {
  }

  lemma ClearNext(ids: seq<nat>, tickets: Tickets, sel: Selector, except: Option<nat>, err: TicketError, id: nat)
    requires id in tickets && id !in ids
    ensures var before, after := Clear(ids, tickets, sel, except, err), Clear(ids + [id], tickets, sel, except, err);
            && id in before && before[id] == tickets[id]
            && after == if Clears(sel, except, id, tickets[id])
                        then before[id := tickets[id].(state := Finalized, err := Some(err))]
                        else before
    ensures ClearedIds(ids + [id], tickets, sel, except) ==
            ClearedIds(ids, tickets, sel, except) + if Clears(sel, except, id, tickets[id]) then [id] else []
  {
    hide Clears;
    assert (ids + [id])[..|ids|] == ids;
    hide ClearedIds;
    ClearOneMore(ids, tickets, sel, except, err, id);
  }

  lemma ClearOneMore(ids: seq<nat>, tickets: Tickets, sel: Selector, except: Option<nat>, err: TicketError, id: nat)
    requires id in tickets && id !in ids
    ensures var before, after := Clear(ids, tickets, sel, except, err), Clear(ids + [id], tickets, sel, except, err);
            && id in before && before[id] == tickets[id]
            && after == if Clears(sel, except, id, tickets[id])
                        then before[id := tickets[id].(state := Finalized, err := Some(err))]
                        else before
  {
    hide Clears;
    var before, after := Clear(ids, tickets, sel, except, err), Clear(ids + [id], tickets, sel, except, err);
    forall x | x in tickets && x != id ensures after[x] == before[x] {
      assert x in ids + [id] <==> x in ids;
    }
    assert after.Keys == before.Keys == tickets.Keys;
    assert id in ids + [id];
  }

  lemma {:induction false} InsertPosition(tickets: Tickets, sorted: seq<nat>, id: nat, p: nat)
    requires id in tickets && (forall x :: x in sorted ==> x in tickets) && p <= |sorted|
    requires forall q :: p <= q < |sorted| ==> Priority(tickets[id].action) < Priority(tickets[sorted[q]].action)
    requires p > 0 ==> Priority(tickets[id].action) >= Priority(tickets[sorted[p - 1]].action)
    ensures Insert(tickets, sorted, id) == sorted[..p] + [id] + sorted[p..]
    decreases |sorted|
  {
    hide Priority;
    if p < |sorted| {
      var n := |sorted| - 1;
      InsertPosition(tickets, sorted[..n], id, p);
      assert sorted[..n][..p] == sorted[..p] && sorted[..n][p..] + [sorted[n]] == sorted[p..];
    } else {
      assert sorted[..p] == sorted && sorted[p..] == [];
    }
  }

  lemma {:induction false} WithoutAt(order: seq<nat>, id: nat, k: nat)
    requires k < |order| && order[k] == id && id !in order[..k]
    ensures Without(order, id) == order[..k] + order[k + 1..]
    decreases k
  {
    if k > 0 {
      assert order[0] in order[..k];
      assert id !in order[1..][..k - 1] by {
        assert order[1..][..k - 1] == order[1..k];
        assert forall x :: x in order[1..k] ==> x in order[..k];
      }
      WithoutAt(order[1..], id, k - 1);
    }
  }

  lemma {:induction false} WithoutAbsent(order: seq<nat>, id: nat)
    requires id !in order
    ensures Without(order, id) == order
  {
    if order != [] {
      WithoutAbsent(order[1..], id);
    }
  }

  lemma ExecutingIsExempt(order: seq<nat>, tickets: Tickets, id: nat, sel: Selector, t: Ticket)
    requires id in tickets
    ensures var executing := tickets[id := tickets[id].(state := Executing)];
            && ClearedIds(order, executing, sel, Some(id)) == ClearedIds(order, tickets, sel, Some(id))
            && Clear(order, executing, sel, Some(id), Cancelled)[id := t] ==
               Clear(order, tickets, sel, Some(id), Cancelled)[id := t]
  {
    hide Picks;
    hide ClearedIds;
    ExemptIds(order, tickets, id, sel);
  }

  lemma {:induction false} ExemptIds(ids: seq<nat>, tickets: Tickets, id: nat, sel: Selector)
    requires id in tickets
    ensures ClearedIds(ids, tickets[id := tickets[id].(state := Executing)], sel, Some(id)) ==
            ClearedIds(ids, tickets, sel, Some(id))
  {
    if ids != [] {
      ExemptIds(ids[..|ids| - 1], tickets, id, sel);
    }
  }

  lemma BatchKeepsKeys(h: Handler, order: seq<nat>, m: Machine, ids: seq<nat>)
    requires MachineOk(m) && Increasing(order) && forall x :: x in m.tickets ==> x in order
    ensures RunAll(h, order, m, ids).tickets.Keys == m.tickets.Keys
  {
    hide RunAll;
    hide Accounted;
    hide EffectsOwned;
    hide Reports;
    RunAllOk(h, order, m, ids);
  }
}
