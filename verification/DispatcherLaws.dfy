/** What the dispatcher's schedule and admission come to, in terms of requests and
    events alone: who runs before whom, who runs at all, and where every ticket
    and every handler call comes from. */
module DispatcherLaws {
  import opened Bytes
  import opened Outcomes
  import opened Acf
  import opened Request
  import opened Lifecycle
  import opened LifecycleProofs
  import opened Scheduling
  import opened DispatcherRuns

  // ------------------------------------------------------- who goes before whom

  predicate Cancels(a: Action) {
    a.CancelAll? || a.CancelTransaction? || a.CancelSequencer?
  }

  /** Section 12.9.2 of TC18: cancellations, then triggered, timed, compound,
      compound-wait, chained and plain requests. */
  predicate ComesBefore(a: Action, b: Action) {
    || (Cancels(a) && !Cancels(b))
    || (a.Triggered? && (b.Timed? || b.Compound? || b.CompoundWait? || b.Chained? || b.Plain?))
    || (a.Timed? && (b.Compound? || b.CompoundWait? || b.Chained? || b.Plain?))
    || (a.Compound? && (b.CompoundWait? || b.Chained? || b.Plain?))
    || (a.CompoundWait? && (b.Chained? || b.Plain?))
    || (a.Chained? && b.Plain?)
  }

  predicate SameKind(a: Action, b: Action) {
    || (Cancels(a) && Cancels(b)) || (a.Triggered? && b.Triggered?) || (a.Timed? && b.Timed?)
    || (a.Compound? && b.Compound?) || (a.CompoundWait? && b.CompoundWait?)
    || (a.Chained? && b.Chained?) || (a.Plain? && b.Plain?)
  }

  /** Ticket `x` is due before ticket `y`: an earlier kind, or the same and older. */
  predicate DueBefore(s: Core, x: nat, y: nat) {
    && x in s.tickets && y in s.tickets
    && (|| ComesBefore(s.tickets[x].action, s.tickets[y].action)
        || (SameKind(s.tickets[x].action, s.tickets[y].action) && x < y))
  }

  lemma RankIsKind(a: Action, b: Action)
    ensures ComesBefore(a, b) <==> Priority(a) < Priority(b)
    ensures SameKind(a, b) <==> Priority(a) == Priority(b)
  {
  }

  /** In every Pump the batch is in that order. */
  lemma BatchIsInOrder(h: Handler, s: Core, i: Inputs, p: nat, q: nat)
    requires Inv(s) && p < |Batch(s, i)| && q < |Batch(s, i)|
    requires DueBefore(s, Batch(s, i)[p], Batch(s, i)[q])
    ensures p < q
  {
    hide Batch;
    hide PumpMachine;
    hide BatchOk;
    hide ReadyIds;
    var x, y := Batch(s, i)[p], Batch(s, i)[q];
    PumpOk(h, s, i);
    StartedOk(s);
    hide Inv;
    hide StartAll;
    hide Runnable;
    RankIsKind(s.tickets[x].action, s.tickets[y].action);
    hide ComesBefore;
    hide SameKind;
    hide Priority;
    assert SameRequest(s.tickets[x], Before0(s).tickets[x]) && SameRequest(s.tickets[y], Before0(s).tickets[y]);
    assert q < p ==> Before(Before0(s).tickets, y, x);
  }

  /** New log entries follow the batch: an earlier entry never belongs to a later
      ticket. */
  lemma {:induction false} EntriesFollowBatch(h: Handler, order: seq<nat>, m: Machine, ids: seq<nat>, j: nat, k: nat)
    returns (p: nat, q: nat)
    requires Runnable(order, m) && |m.log| <= j <= k < |RunAll(h, order, m, ids).log|
    ensures p <= q < |ids|
    ensures var log := RunAll(h, order, m, ids).log; ids[p] == log[j].ticket && ids[q] == log[k].ticket
    decreases ids
  {
    var n := |ids| - 1;
    var front := ids[..n];
    var b := RunAll(h, order, m, front);
    BatchKeepsRunnable(h, order, m, front);
    RunOneStep(h, order, b, ids[n]);
    hide RunOne;
    hide Runnable;
    hide Reports;
    if k < |b.log| {
      p, q := EntriesFollowBatch(h, order, m, front, j, k);
    } else if j < |b.log| {
      p, q := EntriesFollowBatch(h, order, m, front, j, j);
      q := n;
    } else {
      p, q := n, n;
    }
  }

  /** So in every Pump each effect of a ticket due earlier precedes each effect of
      one due later. */
  lemma EffectsAreInOrder(h: Handler, s: Core, i: Inputs, j: nat, k: nat)
    requires Inv(s) && |s.log| <= j < |Pumped(h, s, i).log| && |s.log| <= k < |Pumped(h, s, i).log|
    requires DueBefore(s, Pumped(h, s, i).log[j].ticket, Pumped(h, s, i).log[k].ticket)
    ensures j < k
  {
    hide Batch;
    hide RunAll;
    hide DueBefore;
    PumpOk(h, s, i);
    hide Inv;
    hide Sorted;
    hide BatchOk;
    hide Runnable;
    if k <= j {
      var q, p := EntriesFollowBatch(h, s.order, Before0(s), Batch(s, i), k, j);
      BatchIsInOrder(h, s, i, p, q);
    }
  }

  /** For instance: a released trigger goes before a timed ticket that is due. */
  lemma TriggeredBeforeTimed(s: Core, x: nat, y: nat)
    requires x in s.tickets && y in s.tickets && s.tickets[x].action.Triggered? && s.tickets[y].action.Timed?
    ensures DueBefore(s, x, y) && !DueBefore(s, y, x)
  {
  }

  // ------------------------------------------------------------- who runs at all

  /** Not a safety ticket, or one whose requester's safe state is active. */
  predicate Allowed(i: Inputs, t: Ticket) {
    t.safety ==> i.checkConfigured && i.inSafeState(t.requester)
  }

  /** A pending ticket that waits for `source` and is allowed. */
  predicate WaitsFor(i: Inputs, t: Ticket, source: Word16) {
    Pending(t) && Allowed(i, t) && t.action.Triggered? && t.action.source == source
  }

  /** The older tickets that wait for the same source. */
  ghost function Ahead(s: Core, i: Inputs, x: nat, source: Word16): set<nat> {
    set y | y in s.tickets && y < x && WaitsFor(i, s.tickets[y], source)
  }

  /** How many events `source` reports; one without a pump reports none. */
  function EventsOf(i: Inputs, source: Word16): int {
    if source in i.counts then i.counts[source] else 0
  }

  lemma {:induction false} CompetingIsAhead(s: Core, i: Inputs, p: nat, source: Word16)
    requires Inv(s) && p <= |s.order|
    ensures var x := if p < |s.order| then s.order[p] else s.nextId;
            Competing(i, StartAll(s.tickets), s.order[..p], source) == |Ahead(s, i, x, source)|
    decreases p
  {
    hide Attributed;
    var x := if p < |s.order| then s.order[p] else s.nextId;
    if p == 0 {
      assert forall y :: y in s.tickets ==> y in s.order;
      assert Ahead(s, i, x, source) == {};
    } else {
      var y := s.order[p - 1];
      assert s.order[..p][..p - 1] == s.order[..p - 1];
      CompetingIsAhead(s, i, p - 1, source);
      AheadNext(s, i, p, source);
      CompetesMeans(s, i, y, source);
    }
  }

  lemma CompetesMeans(s: Core, i: Inputs, y: nat, source: Word16)
    requires Inv(s) && y in s.tickets
    ensures Competes(i, StartAll(s.tickets), y, source) <==> WaitsFor(i, s.tickets[y], source)
  {
    hide Attributed;
    StartedOk(s);
  }

  lemma AheadNext(s: Core, i: Inputs, p: nat, source: Word16)
    requires Inv(s) && 0 < p <= |s.order|
    ensures var x := if p < |s.order| then s.order[p] else s.nextId; var y := s.order[p - 1];
            && y in s.tickets
            && |Ahead(s, i, x, source)| == |Ahead(s, i, y, source)| + if WaitsFor(i, s.tickets[y], source) then 1 else 0
  {
    hide WaitsFor;
    hide Inv;
    hide Ahead;
    NextInOrder(s, p);
    AheadGrows(s, i, if p < |s.order| then s.order[p] else s.nextId, s.order[p - 1], source);
  }

  lemma AheadGrows(s: Core, i: Inputs, x: nat, y: nat, source: Word16)
    requires y in s.tickets && forall z :: z in s.tickets ==> (z < x <==> z <= y)
    ensures |Ahead(s, i, x, source)| == |Ahead(s, i, y, source)| + if WaitsFor(i, s.tickets[y], source) then 1 else 0
  {
    hide WaitsFor;
    var before, after := Ahead(s, i, y, source), Ahead(s, i, x, source);
    if WaitsFor(i, s.tickets[y], source) {
      assert after == before + {y};
    } else {
      assert after == before;
    }
  }

  lemma NextInOrder(s: Core, p: nat)
    requires Inv(s) && 0 < p <= |s.order|
    ensures var x := if p < |s.order| then s.order[p] else s.nextId; var y := s.order[p - 1];
            y in s.tickets && forall z :: z in s.tickets ==> (z < x <==> z <= y)
  {
    hide Attributed;
    hide TicketOk;
    var x := if p < |s.order| then s.order[p] else s.nextId;
    forall z | z in s.tickets ensures z < x <==> z <= s.order[p - 1] {
      var q :| 0 <= q < |s.order| && s.order[q] == z;
    }
  }

  /** A Pump's batch is exactly the pending tickets whose gate is open, whose time
      has come if they are timed, and who have fewer allowed older rivals than
      their source has events if they are triggered. */
  lemma BatchExactly(s: Core, i: Inputs, x: nat)
    requires Inv(s)
    ensures x in Batch(s, i) <==>
            && x in s.tickets && Pending(s.tickets[x]) && Allowed(i, s.tickets[x])
            && (s.tickets[x].action.Timed? ==> i.now >= s.tickets[x].action.at)
            && (s.tickets[x].action.Triggered? ==>
                  var source := s.tickets[x].action.source; |Ahead(s, i, x, source)| < EventsOf(i, source))
  {
    hide StartAll;
    hide ReadyIds;
    hide Schedule;
    hide Ahead;
    if x in s.tickets {
      StartedOk(s);
      var p :| 0 <= p < |s.order| && s.order[p] == x;
      ReadyMember(i, StartAll(s.tickets), s.order, p);
      if s.tickets[x].action.Triggered? {
        CompetingIsAhead(s, i, p, s.tickets[x].action.source);
      }
      hide Competing;
      hide Attributed;
      assert SameRequest(s.tickets[x], StartAll(s.tickets)[x]);
    } else if x in Batch(s, i) {
      BatchIsReady(s, i, x);
    }
  }

  // -------------------------------------------------------- who gets a ticket

  /** `body` is the encoding of request `a`, in its safety variant if `safety`. */
  predicate ReadsAs(body: seq<Byte>, a: Action, safety: bool) {
    Encodable(a, safety) && body == EncodeEnvelope(a, safety)
  }

  ghost predicate Readable(body: seq<Byte>) {
    exists a, safety :: ReadsAs(body, a, safety)
  }

  /** The message carries an envelope: long, without a valid timestamp. */
  predicate CarriesEnvelope(req: Message) {
    req.kind == 2 && !req.mtv
  }

  lemma AtMostOneReading(body: seq<Byte>, a: Action, safety: bool, a': Action, safety': bool)
    requires ReadsAs(body, a, safety) && ReadsAs(body, a', safety')
    ensures a == a' && safety == safety'
  {
    hide Encodable;
    hide EncodeEnvelope;
    hide DecodeEnvelope;
    EnvelopeCodec(body, a, safety);
    EnvelopeCodec(body, a', safety');
  }

  /** Access comes first, then the envelope, then the safe-state check; nothing
      else stops a request, and what is issued is the request as it was sent. */
  lemma AdmitExactly(requester: StreamId, req: Message, admitted: bool, check: bool)
    ensures var r := Admit(requester, req, admitted, check);
            && (r == Err(AccessDenied) <==> !admitted)
            && (r.Err? && r.error.BadEnvelope? <==> admitted && CarriesEnvelope(req) && !Readable(req.body))
            && (r == Err(SafeStateNotConfigured) <==>
                  admitted && CarriesEnvelope(req) && !check && exists a :: ReadsAs(req.body, a, true))
            && (r.Ok? ==>
                  var t := r.value;
                  && t.requester == requester && t.original == req
                  && t.state == Queued && t.response == None && t.err == None
                  && (if CarriesEnvelope(req) then ReadsAs(req.body, t.action, t.safety)
                      else t.action == Plain(req.control, req.body) && !t.safety))
  {
    hide Encodable;
    hide EncodeEnvelope;
    hide DecodeEnvelope;
    var d := DecodeEnvelope(req.body);
    if d.Ok? {
      EnvelopeCodec(req.body, d.value.0, d.value.1);
      assert ReadsAs(req.body, d.value.0, d.value.1);
    }
    forall a, safety | ReadsAs(req.body, a, safety) ensures d == Ok((a, safety)) {
      EnvelopeCodec(req.body, a, safety);
    }
  }

  /** Event `p` of the run is the admitted submission that issued ticket `x` for
      that requester and that message. */
  ghost predicate IssuedBy(h: Handler, evs: seq<Event>, p: nat, x: nat, requester: StreamId, original: Message) {
    && p < |evs| && evs[p].Submit? && evs[p].admitted
    && evs[p].requester == requester && evs[p].req == original
    && Run(h, Fresh(), evs[..p]).core.nextId == x
  }

  lemma NewTicketIsSubmitted(h: Handler, s: System, e: Event, x: nat)
    requires Inv(s.core) && x in Step(h, s, e).core.tickets && x !in s.core.tickets
    ensures e.Submit? && e.admitted && x == s.core.nextId
    ensures var t := Step(h, s, e).core.tickets[x]; t.requester == e.requester && t.original == e.req
  {
    hide Decoded;
    match e {
      case Submit(_, _, _) => hide Inv;
      case Pump(_, _, _) =>
        hide Pumped;
        PumpKeys(h, s.core, InputsOf(s, e));
        assert false;
      case Purge =>
      case Forget(_) =>
      case SetSafeStateCheck(_) =>
    }
  }

  /** In every run each ticket was issued by an admitted submission of that run. */
  lemma {:induction false} TicketsAreSubmitted(h: Handler, evs: seq<Event>, x: nat)
    requires x in Run(h, Fresh(), evs).core.tickets
    ensures var t := Run(h, Fresh(), evs).core.tickets[x];
            exists p :: 0 <= p < |evs| && IssuedBy(h, evs, p, x, t.requester, t.original)
    decreases |evs|
  {
    hide Step;
    var n := |evs| - 1;
    var rest, e := evs[..n], evs[n];
    var s := Run(h, Fresh(), rest);
    assert Run(h, Fresh(), evs) == Step(h, s, e);
    RunKeepsInv(h, rest);
    var t := Step(h, s, e).core.tickets[x];
    if x in s.core.tickets {
      StepMovesForward(h, s, e);
      assert SameRequest(s.core.tickets[x], t);
      TicketsAreSubmitted(h, rest, x);
      hide Inv;
      hide Run;
      var p :| 0 <= p < |rest| && IssuedBy(h, rest, p, x, t.requester, t.original);
      assert rest[..p] == evs[..p] && rest[p] == evs[p];
      assert IssuedBy(h, evs, p, x, t.requester, t.original);
    } else {
      NewTicketIsSubmitted(h, s, e, x);
      hide Inv;
      hide Run;
      assert IssuedBy(h, evs, n, x, t.requester, t.original);
    }
  }

  // ------------------------------------------------- where every call comes from

  lemma {:induction false} BatchCarriesRequests(h: Handler, order: seq<nat>, m: Machine, ids: seq<nat>, k: nat)
    requires Runnable(order, m) && |m.log| <= k < |RunAll(h, order, m, ids).log|
    ensures var e := RunAll(h, order, m, ids).log[k];
            e.ticket in m.tickets && (e.Call? ==> CarriesRequest(e, m.tickets[e.ticket]))
    decreases ids
  {
    hide CarriesRequest;
    var n := |ids| - 1;
    var front := ids[..n];
    var b := RunAll(h, order, m, front);
    BatchKeepsRunnable(h, order, m, front);
    RunAllOk(h, order, m, front);
    hide BatchOk;
    EvolvesOf(m, b, front);
    RunOneStep(h, order, b, ids[n]);
    if k < |b.log| {
      hide RunOne;
      BatchCarriesRequests(h, order, m, front, k);
    } else {
      var t := b.tickets[ids[n]];
      assert SameRequest(m.tickets[ids[n]], t);
      if IsCancellation(t.action) {
        hide RunOne;
        hide Runnable;
        assert false;
      }
      PerformCarriesRequest(h, ids[n], t, b.bank, b.log);
      hide Perform;
      SameRequestCarries(RunOne(h, order, b, ids[n]).log[k], m.tickets[ids[n]], t);
    }
  }

  lemma EvolvesOf(m: Machine, b: Machine, ids: seq<nat>)
    requires BatchOk(m, b, ids)
    ensures Evolves(m, b)
  {
  }

  lemma SameRequestCarries(e: Effect, t: Ticket, t': Ticket)
    requires SameRequest(t, t')
    ensures CarriesRequest(e, t') ==> CarriesRequest(e, t)
  {
  }

  /** Call `e` is made on behalf of the submission `p` that issued its ticket, and
      carries that submission's requester and message fields. */
  ghost predicate StemsFrom(h: Handler, evs: seq<Event>, p: nat, e: Effect) {
    && e.Call? && p < |evs| && evs[p].Submit? && evs[p].admitted
    && Run(h, Fresh(), evs[..p]).core.nextId == e.ticket
    && e.requester == evs[p].requester
    && e.msg.kind == evs[p].req.kind && e.msg.busId == evs[p].req.busId && e.msg.txn == evs[p].req.txn
    && e.msg.evt == evs[p].req.evt && e.msg.readSize == evs[p].req.readSize
    && e.msg.timestamp == evs[p].req.timestamp
  }

  /** In every run each handler call stems from an admitted submission before it. */
  lemma CallsAreSubmitted(h: Handler, evs: seq<Event>, k: nat)
    requires k < |Run(h, Fresh(), evs).core.log| && Run(h, Fresh(), evs).core.log[k].Call?
    ensures exists p :: 0 <= p < |evs| && StemsFrom(h, evs, p, Run(h, Fresh(), evs).core.log[k])
  {
    hide Run;
    RunEffectsPassTheGate(h, evs, k);
    var q :| 0 <= q < |evs| && AppendedAt(h, evs, q, k)
             && Run(h, Fresh(), evs).core.log[k] == Run(h, Fresh(), evs[..q + 1]).core.log[k];
    var s, e := Run(h, Fresh(), evs[..q]), Run(h, Fresh(), evs).core.log[k];
    RunKeepsInv(h, evs[..q]);
    StepOfRun(h, evs, q);
    PumpCarriesRequests(h, s.core, InputsOf(s, evs[q]), k);
    hide Inv;
    hide Pumped;
    var t := s.core.tickets[e.ticket];
    TicketsAreSubmitted(h, evs[..q], e.ticket);
    var p :| 0 <= p < q && IssuedBy(h, evs[..q], p, e.ticket, t.requester, t.original);
    assert evs[..q][..p] == evs[..p] && evs[..q][p] == evs[p];
    assert StemsFrom(h, evs, p, e);
  }

  lemma StepOfRun(h: Handler, evs: seq<Event>, q: nat)
    requires q < |evs| && evs[q].Pump?
    ensures var s := Run(h, Fresh(), evs[..q]);
            Run(h, Fresh(), evs[..q + 1]).core == Pumped(h, s.core, InputsOf(s, evs[q]))
  {
    hide Pumped;
    assert evs[..q + 1][..q] == evs[..q];
  }

  lemma PumpCarriesRequests(h: Handler, s: Core, i: Inputs, k: nat)
    requires Inv(s) && |s.log| <= k < |Pumped(h, s, i).log|
    ensures var e := Pumped(h, s, i).log[k];
            e.ticket in s.tickets && (e.Call? ==> CarriesRequest(e, s.tickets[e.ticket]))
  {
    hide RunAll;
    hide Batch;
    hide CarriesRequest;
    StartedOk(s);
    BatchCarriesRequests(h, s.order, Before0(s), Batch(s, i), k);
    var e := Pumped(h, s, i).log[k];
    assert SameRequest(s.tickets[e.ticket], Before0(s).tickets[e.ticket]);
    SameRequestCarries(e, s.tickets[e.ticket], Before0(s).tickets[e.ticket]);
  }
}
