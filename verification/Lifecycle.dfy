/** The request-lifecycle state machine as functions of values: what becoming
    ready, being scheduled, executing, cancelling and purging do to a set of
    tickets, to the sequencer registers and to the endpoint. */
module Lifecycle {
  import opened Bytes
  import opened Outcomes
  import opened Nibbles
  import opened Acf
  import opened Request

  datatype State = Queued | Started | Executing | Finalized

  datatype TicketError = HandlerFailed(code: nat) | ChainFailed(code: nat) | Cancelled | Purged

  datatype Ticket = Ticket(
    requester: StreamId,
    original: Message,
    action: Action,
    safety: bool,
    state: State,
    response: Option<Message>,
    err: Option<TicketError>)

  type Tickets = map<nat, Ticket>

  /** What a ticket does to the world: a call of the endpoint's handler, or a
      change of a sequencer register. */
  datatype Effect =
    | Call(ticket: nat, requester: StreamId, msg: Message)
    | Advance(ticket: nat, sequencer: Word16, value: Word32)

  /** A handler may return a message beside its error. */
  datatype Reply = Replied(msg: Message) | Failed(code: nat, msg: Message)

  /** The wrapped endpoint: any answer to a request, depending on everything
      that has happened before it. */
  type Handler = (seq<Effect>, StreamId, Message) -> Reply

  // -------------------------------------------------------------- messages

  function InnerMessage(t: Ticket, control: Byte, body: seq<Byte>): Message {
    Message(t.original.kind, 0, t.original.busId, t.original.txn, t.original.evt, false, false, false,
            control, t.original.readSize, t.original.timestamp, body)
  }

  function InnerControl(a: Action): Byte {
    match a
    case Plain(c, _) => c
    case Compound(_, c, _) => c
    case Triggered(_, c, _) => c
    case Timed(_, c, _) => c
    case _ => 0
  }

  /** The response flag, with the read and write bits of `control` kept. */
  function ResponseControl(control: Byte): Byte {
    Octet(ValueOf(Nibble(Flags(control).b3, Flags(control).b2, true, false)), 0)
  }

  function ResponseFor(t: Ticket, body: seq<Byte>): Message {
    Message(t.original.kind, 0, t.original.busId, t.original.txn, 0, false, false, false,
            ResponseControl(InnerControl(t.action)), 0, 0, body)
  }

  // -------------------------------------------------------------- execution

  datatype Outcome = Outcome(response: Option<Message>, err: Option<TicketError>, bank: Bank, log: seq<Effect>)

  function CallHandler(h: Handler, id: nat, t: Ticket, control: Byte, body: seq<Byte>,
                       bank: Bank, log: seq<Effect>): Outcome {
    var msg := InnerMessage(t, control, body);
    var log' := log + [Call(id, t.requester, msg)];
    match h(log, t.requester, msg)
    case Replied(r) => Outcome(Some(r), None, bank, log')
    case Failed(code, r) => Outcome(Some(r), Some(HandlerFailed(code)), bank, log')
  }

  /** Evaluating a condition, with the register change it may cause. */
  function EvaluateCondition(id: nat, c: Conditional, log: seq<Effect>, bank: Bank): (Bank, seq<Effect>) {
    var bank' := Advanced(c, bank);
    (bank', if Matches(c, bank) then log + [Advance(id, c.sequencer, Get(bank', c.sequencer))] else log)
  }

  datatype ChainRun = ChainRun(responses: seq<ChainedResponse>, failure: Option<nat>, log: seq<Effect>)

  /** A chain runs its segments in order and stops at the first failure. */
  function RunChain(h: Handler, id: nat, t: Ticket, segs: seq<Segment>, log: seq<Effect>): ChainRun
    decreases segs
  {
    if segs == [] then ChainRun([], None, log)
    else
      var msg := InnerMessage(t, segs[0].control, segs[0].body);
      var log' := log + [Call(id, t.requester, msg)];
      match h(log, t.requester, msg)
      case Failed(code, _) => ChainRun([ChainedResponse(true, [])], Some(code), log')
      case Replied(r) =>
        var rest := RunChain(h, id, t, segs[1..], log');
        ChainRun([ChainedResponse(false, r.body)] + rest.responses, rest.failure, rest.log)
  }

  /** Everything but cancellation, which acts on other tickets. */
  function Perform(h: Handler, id: nat, t: Ticket, bank: Bank, log: seq<Effect>): Outcome
    requires !IsCancellation(t.action)
  {
    match t.action
    case Plain(control, body) => CallHandler(h, id, t, control, body, bank, log)
    case Triggered(_, control, body) => CallHandler(h, id, t, control, body, bank, log)
    case Timed(_, control, body) => CallHandler(h, id, t, control, body, bank, log)
    case CompoundWait(c) =>
      var (bank', log') := EvaluateCondition(id, c, log, bank);
      var body := EncodeConditionalResponse(Matches(c, bank), Get(bank', c.sequencer), []);
      Outcome(Some(ResponseFor(t, body)), None, bank', log')
    case Compound(c, control, body) =>
      var (bank', log') := EvaluateCondition(id, c, log, bank);
      var value := Get(bank', c.sequencer);
      if !Matches(c, bank) then
        Outcome(Some(ResponseFor(t, EncodeConditionalResponse(false, value, []))), None, bank', log')
      else
        var o := CallHandler(h, id, t, control, body, bank', log');
        if o.err.Some? then o.(response := None)
        else o.(response := Some(ResponseFor(t, EncodeConditionalResponse(true, value, o.response.value.body))))
    case Chained(segs) =>
      var run := RunChain(h, id, t, segs, log);
      Outcome(Some(ResponseFor(t, EncodeChainedResponse(run.responses, |segs|))),
              if run.failure.Some? then Some(ChainFailed(run.failure.value)) else None, bank, run.log)
  }

  // ----------------------------------------------------------- cancellation

  datatype Selector = All | Txn(txn: Word16) | Gated(sequencer: Word16) | NonSafety

  predicate Picks(sel: Selector, t: Ticket) {
    match sel
    case All => true
    case Txn(txn) => t.original.txn == txn
    case Gated(id) => !t.safety && (t.action.Compound? || t.action.CompoundWait?) && t.action.cond.sequencer == id
    case NonSafety => !t.safety
  }

  predicate Pending(t: Ticket) {
    t.state != Finalized
  }

  predicate Clears(sel: Selector, except: Option<nat>, id: nat, t: Ticket) {
    Pending(t) && except != Some(id) && Picks(sel, t)
  }

  function ClearedIds(ids: seq<nat>, tickets: Tickets, sel: Selector, except: Option<nat>): seq<nat> {
    if ids == [] then []
    else
      var id := ids[|ids| - 1];
      ClearedIds(ids[..|ids| - 1], tickets, sel, except) +
        if id in tickets && Clears(sel, except, id, tickets[id]) then [id] else []
  }

  /** `tickets` with every pending one that `sel` picks finalized under `err`. */
  function Clear(ids: seq<nat>, tickets: Tickets, sel: Selector, except: Option<nat>, err: TicketError): Tickets {
    map id | id in tickets ::
      if id in ids && Clears(sel, except, id, tickets[id]) then tickets[id].(state := Finalized, err := Some(err))
      else tickets[id]
  }

  function SelectorOf(a: Action): Selector
    requires IsCancellation(a)
  {
    match a
    case CancelAll => All
    case CancelTransaction(txn) => Txn(txn)
    case CancelSequencer(id) => Gated(id)
  }

  // --------------------------------------------------------------- the batch

  /** The part of a dispatcher that execution changes; `done` lists the tickets
      finalized so far by this pump. */
  datatype Machine = Machine(tickets: Tickets, bank: Bank, log: seq<Effect>, done: seq<nat>)

  predicate IsLive(m: Machine, id: nat) {
    id in m.tickets && Pending(m.tickets[id])
  }

  /** Run one ticket to completion, or skip it if it is already finalized. */
  function RunOne(h: Handler, order: seq<nat>, m: Machine, id: nat): Machine {
    if !IsLive(m, id) then m
    else
      var t := m.tickets[id];
      if IsCancellation(t.action) then
        var sel := SelectorOf(t.action);
        var ids := ClearedIds(order, m.tickets, sel, Some(id));
        var t' := t.(state := Finalized, response := Some(ResponseFor(t, EncodeCancelResponse(|ids|))));
        Machine(Clear(order, m.tickets, sel, Some(id), Cancelled)[id := t'], m.bank, m.log, m.done + [id] + ids)
      else
        var o := Perform(h, id, t, m.bank, m.log);
        Machine(m.tickets[id := t.(state := Finalized, response := o.response, err := o.err)],
                o.bank, o.log, m.done + [id])
  }

  function RunAll(h: Handler, order: seq<nat>, m: Machine, ids: seq<nat>): Machine {
    if ids == [] then m
    else RunOne(h, order, RunAll(h, order, m, ids[..|ids| - 1]), ids[|ids| - 1])
  }

  // ------------------------------------------------------------- scheduling

  /** The order of section 12.9.2: by rank, by arrival within a rank. */
  predicate Before(tickets: Tickets, a: nat, b: nat)
    requires a in tickets && b in tickets
  {
    var pa, pb := Priority(tickets[a].action), Priority(tickets[b].action);
    pa < pb || (pa == pb && a < b)
  }

  /** Stable insertion: behind every id of the same or a smaller rank. */
  function Insert(tickets: Tickets, sorted: seq<nat>, id: nat): seq<nat>
    requires id in tickets && forall x :: x in sorted ==> x in tickets
  {
    if sorted == [] then [id]
    else
      var last := sorted[|sorted| - 1];
      if Priority(tickets[id].action) < Priority(tickets[last].action) then
        Insert(tickets, sorted[..|sorted| - 1], id) + [last]
      else sorted + [id]
  }

  function Schedule(tickets: Tickets, ids: seq<nat>): (s: seq<nat>)
    requires forall x :: x in ids ==> x in tickets
    ensures forall x :: x in s <==> x in ids
  {
    if ids == [] then []
    else
      var rest := Schedule(tickets, ids[..|ids| - 1]);
      InsertMembers(tickets, rest, ids[|ids| - 1]);
      assert ids == ids[..|ids| - 1] + [ids[|ids| - 1]];
      Insert(tickets, rest, ids[|ids| - 1])
  }

  lemma {:induction false} InsertMembers(tickets: Tickets, sorted: seq<nat>, id: nat)
    requires id in tickets && forall x :: x in sorted ==> x in tickets
    ensures forall x :: x in Insert(tickets, sorted, id) <==> x == id || x in sorted
  {
    if sorted != [] {
      var n := |sorted| - 1;
      assert sorted == sorted[..n] + [sorted[n]];
      InsertMembers(tickets, sorted[..n], id);
    }
  }

  // -------------------------------------------------------------- readiness

  /** What one Pump observes: the clock, each registered trigger source's count,
      and whether the safe state is active for a requester. */
  datatype Inputs = Inputs(now: Word64, counts: map<Word16, int>, checkConfigured: bool, inSafeState: StreamId -> bool)

  predicate GateOpen(i: Inputs, t: Ticket) {
    t.safety ==> i.checkConfigured && i.inSafeState(t.requester)
  }

  function Count(i: Inputs, source: Word16): int {
    if source in i.counts then i.counts[source] else 0
  }

  function StartAll(tickets: Tickets): Tickets {
    map id | id in tickets ::
      if tickets[id].state == Queued then tickets[id].(state := Started) else tickets[id]
  }

  /** `id` competes for events of `source`: started, triggered by it, gate open. */
  predicate Competes(i: Inputs, tickets: Tickets, id: nat, source: Word16) {
    && id in tickets && tickets[id].state == Started && GateOpen(i, tickets[id])
    && tickets[id].action.Triggered? && tickets[id].action.source == source
  }

  /** How many tickets in `ids` compete for `source`. */
  function Competing(i: Inputs, tickets: Tickets, ids: seq<nat>, source: Word16): nat {
    if ids == [] then 0
    else Competing(i, tickets, ids[..|ids| - 1], source) + if Competes(i, tickets, ids[|ids| - 1], source) then 1 else 0
  }

  /** A ticket is ready when its gate is open and its own kind's condition
      holds; a triggered one needs an event left over by older competitors. */
  predicate IsReady(i: Inputs, tickets: Tickets, older: seq<nat>, id: nat) {
    && id in tickets && tickets[id].state == Started && GateOpen(i, tickets[id])
    && match tickets[id].action
       case Triggered(source, _, _) => Competing(i, tickets, older, source) < Count(i, source)
       case Timed(at, _, _) => i.now >= at
       case _ => true
  }

  function ReadyIds(i: Inputs, tickets: Tickets, order: seq<nat>): (r: seq<nat>)
    ensures forall x :: x in r ==> x in order && x in tickets
  {
    if order == [] then []
    else
      var older, id := order[..|order| - 1], order[|order| - 1];
      ReadyIds(i, tickets, older) + if IsReady(i, tickets, older, id) then [id] else []
  }

  // ------------------------------------------------------------- dispatcher

  datatype Core = Core(order: seq<nat>, tickets: Tickets, nextId: nat, bank: Bank, log: seq<Effect>)

  /** The batch one Pump executes. */
  function Batch(s: Core, i: Inputs): seq<nat> {
    var started := StartAll(s.tickets);
    Schedule(started, ReadyIds(i, started, s.order))
  }

  function PumpMachine(h: Handler, s: Core, i: Inputs): Machine {
    RunAll(h, s.order, Machine(StartAll(s.tickets), s.bank, s.log, []), Batch(s, i))
  }

  function Pumped(h: Handler, s: Core, i: Inputs): Core {
    var m := PumpMachine(h, s, i);
    s.(tickets := m.tickets, bank := m.bank, log := m.log)
  }

  datatype SubmitError = AccessDenied | BadEnvelope(error: Request.Error) | SafeStateNotConfigured

  /** A long message without a valid timestamp carries an envelope. */
  predicate IsEnvelope(req: Message) {
    req.kind == KIND_LONG && !req.mtv
  }

  function Decoded(req: Message): Result<(Action, bool), Request.Error> {
    if IsEnvelope(req) then DecodeEnvelope(req.body) else Ok((Plain(req.control, req.body), false))
  }

  /** The ticket a request becomes, or why it is refused. */
  function Admit(requester: StreamId, req: Message, admitted: bool, checkConfigured: bool)
    : Result<Ticket, SubmitError>
  {
    if !admitted then Err(AccessDenied)
    else
      var d := Decoded(req);
      if d.Err? then Err(BadEnvelope(d.error))
      else if d.value.1 && !checkConfigured then Err(SafeStateNotConfigured)
      else Ok(Ticket(requester, req, d.value.0, d.value.1, Queued, None, None))
  }

  function Submitted(s: Core, t: Ticket): Core {
    s.(tickets := s.tickets[s.nextId := t], order := s.order + [s.nextId], nextId := s.nextId + 1)
  }

  function PurgedCore(s: Core): Core {
    s.(tickets := Clear(s.order, s.tickets, NonSafety, None, Purged))
  }

  function Without(order: seq<nat>, id: nat): seq<nat> {
    if order == [] then []
    else if order[0] == id then order[1..]
    else [order[0]] + Without(order[1..], id)
  }

  function Forgotten(s: Core, id: nat): Core {
    if id in s.tickets && s.tickets[id].state == Finalized then
      s.(tickets := s.tickets - {id}, order := Without(s.order, id))
    else s
  }
}
