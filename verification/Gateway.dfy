/** The gateway puts a reassembler in front of a dispatcher: only whole messages
    are submitted. */
module Gateways {
  import opened Bytes
  import opened Outcomes
  import opened Acf
  import opened Request
  import opened Lifecycle
  import opened LifecycleProofs
  import opened DispatcherRuns
  import opened Dispatching
  import opened Fragment
  import FragmentRuns

  datatype GatewayError = AwaitingSegments | NotReassembled(add: AddError) | Refused(submit: SubmitError)

  class Gateway {
    const reassembler: Reassembler
    const dispatcher: Dispatcher

    constructor (dispatcher: Dispatcher, reassembler: Reassembler)
      ensures this.dispatcher == dispatcher && this.reassembler == reassembler
    {
      this.dispatcher, this.reassembler := dispatcher, reassembler;
    }

    /** Nothing reaches the dispatcher until a message is complete; then exactly
        the reassembled message does, once, and its key is free again. */
    method Submit(requester: StreamId, req: Message, admitted: bool, now: int) returns (r: Result<nat, GatewayError>)
      requires dispatcher.Valid()
      modifies reassembler`seqs, dispatcher`tickets, dispatcher`order, dispatcher`nextId
      ensures dispatcher.Valid()
      ensures var key := KeyOf(requester, req);
              var step := AddStep(Lookup(old(reassembler.seqs), key), reassembler.maxSegments, req, now);
              if step.1 == Accepted(true) then
                && step.0.Some?
                && reassembler.seqs == old(reassembler.seqs) - {key}
                && var whole := Reassembled(step.0.value, key);
                   var t := Admit(requester, whole, admitted, dispatcher.checkConfigured);
                   && r == (if t.Ok? then Ok(old(dispatcher.nextId)) else Err(Refused(t.error)))
                   && System(dispatcher.View(), dispatcher.checkConfigured) ==
                      Step(dispatcher.handler, old(System(dispatcher.View(), dispatcher.checkConfigured)),
                           DispatcherRuns.Submit(requester, whole, admitted))
              else
                && reassembler.seqs == Put(old(reassembler.seqs), key, step.0)
                && dispatcher.View() == old(dispatcher.View())
                && r == Err(if step.1.Rejected? then NotReassembled(step.1.error) else AwaitingSegments)
    {
      hide Inv;
      hide Admit;
      hide Step;
      hide Reassembled;
      CompletionIsReady(Lookup(reassembler.seqs, KeyOf(requester, req)), reassembler.maxSegments, req, now);
      hide AddStep;
      ghost var view := dispatcher.View();
      var added := reassembler.Add(requester, req, now);
      assert dispatcher.View() == view;
      if added.Rejected? {
        return Err(NotReassembled(added.error));
      }
      if !added.complete {
        return Err(AwaitingSegments);
      }
      var key := KeyOf(requester, req);
      var combined := reassembler.Finish(key);
      assert dispatcher.View() == view;
      // The completed sequence is there and ready, so Finish cannot fail.
      assert combined.Ok?;
      var ticket := dispatcher.Submit(requester, combined.value, admitted);
      r := if ticket.Ok? then Ok(ticket.value) else Err(Refused(ticket.error));
    }
  }

  /** An accepted completion leaves a ready sequence, so Finish cannot fail. */
  lemma CompletionIsReady(cur: Option<Sequence>, max: nat, m: Message, now: int)
    ensures AddStep(cur, max, m, now).1 == Accepted(true) ==>
            AddStep(cur, max, m, now).0.Some? && AddStep(cur, max, m, now).0.value.ready
  {
    hide WithMore;
    hide WithoutMore;
  }

  // ------------------------------------------------- what the gateway changes

  /** An ordinary message on a free key completes at once, as itself without what
      a sequence does not keep. For one sent in segments SplitDelivery in
      FragmentRuns says the same. */
  lemma UnfragmentedIsStripped(stream: StreamId, m: Message, max: nat, now: int)
    requires !MoreSegments(m.control)
    ensures var step := AddStep(None, max, m, now);
            && step.1 == Accepted(true) && step.0.Some?
            && Reassembled(step.0.value, KeyOf(stream, m)) == FragmentRuns.Stripped(m)
  {
    hide Concat;
    SingleConcat([m.body]);
  }

  /** What an admitted request comes to: refused, a sweep over other tickets, or
      its own outcome with handler calls, registers, response and error. */
  datatype Meaning = TurnedAway(error: SubmitError) | Sweeps(sel: Selector) | Acts(outcome: Outcome)

  function MeaningOf(h: Handler, id: nat, requester: StreamId, m: Message, checkConfigured: bool,
                     bank: Bank, log: seq<Effect>): Meaning {
    var t := Admit(requester, m, true, checkConfigured);
    if t.Err? then TurnedAway(t.error)
    else if IsCancellation(t.value.action) then Sweeps(SelectorOf(t.value.action))
    else Acts(Perform(h, id, t.value, bank, log))
  }

  /** The action calls the handler, given the registers. */
  predicate CallsHandler(a: Action, bank: Bank) {
    match a
    case Plain(_, _) | Triggered(_, _, _) | Timed(_, _, _) => true
    case Compound(c, _, _) => Matches(c, bank)
    case Chained(segs) => segs != []
    case _ => false
  }

  /** The request is admitted and calls the handler. */
  predicate ReachesHandler(requester: StreamId, m: Message, checkConfigured: bool, bank: Bank) {
    var t := Admit(requester, m, true, checkConfigured);
    t.Ok? && CallsHandler(t.value.action, bank)
  }

  lemma EnvelopesAreNeverPlain(body: seq<Byte>)
    ensures DecodeEnvelope(body).Ok? ==> !DecodeEnvelope(body).value.0.Plain?
  {
    hide DecodeConditional;
    hide DecodeSegments;
  }

  /** A message decodes to the same request through the gateway exactly when it is
      not a long message with a valid timestamp: reassembly drops the mark, and a
      long message without it is an envelope. */
  lemma DecodedAgreesExactlyWhen(m: Message)
    ensures Decoded(FragmentRuns.Stripped(m)) == Decoded(m) <==> !(m.kind == KIND_LONG && m.mtv)
  {
    hide DecodeEnvelope;
    EnvelopesAreNeverPlain(m.body);
  }

  // Tickets for `m` and for `m` as reassembled.

  lemma InnerOfStripped(t: Ticket, control: Byte, body: seq<Byte>)
    ensures var t' := t.(original := FragmentRuns.Stripped(t.original));
            && InnerMessage(t', control, body) == InnerMessage(t, control, body).(evt := 0)
            && ResponseFor(t', body) == ResponseFor(t, body)
  {
  }

  lemma {:induction false} ChainOfStripped(h: Handler, id: nat, t: Ticket, segs: seq<Segment>, log: seq<Effect>)
    requires t.original.evt == 0
    ensures RunChain(h, id, t.(original := FragmentRuns.Stripped(t.original)), segs, log)
         == RunChain(h, id, t, segs, log)
    decreases segs
  {
    hide InnerMessage;
    if segs != [] {
      InnerOfStripped(t, segs[0].control, segs[0].body);
      InnerKeepsEvt(t, segs[0].control, segs[0].body);
      var call := Call(id, t.requester, InnerMessage(t, segs[0].control, segs[0].body));
      ChainOfStripped(h, id, t, segs[1..], log + [call]);
    }
  }

  lemma InnerKeepsEvt(t: Ticket, control: Byte, body: seq<Byte>)
    ensures InnerMessage(t, control, body).evt == t.original.evt && InnerMessage(t, control, body).body == body
  {
  }

  /** With nothing in evt, or no handler to see it, the two act alike. */
  lemma StrippedActsAlike(h: Handler, id: nat, t: Ticket, bank: Bank, log: seq<Effect>)
    requires !IsCancellation(t.action) && (t.original.evt == 0 || !CallsHandler(t.action, bank))
    ensures Perform(h, id, t.(original := FragmentRuns.Stripped(t.original)), bank, log) == Perform(h, id, t, bank, log)
  {
    hide InnerMessage;
    hide ResponseFor;
    hide RunChain;
    hide EncodeChainedResponse;
    hide EncodeConditionalResponse;
    hide Matches;
    hide Advanced;
    var t' := t.(original := FragmentRuns.Stripped(t.original));
    forall body ensures ResponseFor(t', body) == ResponseFor(t, body) {
      InnerOfStripped(t, 0, body);
    }
    if t.action.Chained? {
      if t.action.segments == [] {
        EmptyChain(h, id, t, log);
        EmptyChain(h, id, t', log);
      } else {
        ChainOfStripped(h, id, t, t.action.segments, log);
      }
    } else if !t.action.CompoundWait? {
      InnerOfStripped(t, t.action.control, t.action.body);
      InnerKeepsEvt(t, t.action.control, t.action.body);
    }
  }

  lemma EmptyChain(h: Handler, id: nat, t: Ticket, log: seq<Effect>)
    ensures RunChain(h, id, t, [], log) == ChainRun([], None, log)
  {
  }

  /** The log entry at which the first handler call of an action is recorded. */
  function FirstCall(a: Action, log: seq<Effect>): nat {
    if a.Compound? then |log| + 1 else |log|
  }

  /** What the first handler call carries. */
  function FirstInner(a: Action): (Byte, seq<Byte>) {
    match a
    case Plain(control, body) => (control, body)
    case Compound(_, control, body) => (control, body)
    case Triggered(_, control, body) => (control, body)
    case Timed(_, control, body) => (control, body)
    case Chained(segs) => if segs == [] then (0, []) else (segs[0].control, segs[0].body)
    case _ => (0, [])
  }

  lemma FirstCallIsLogged(h: Handler, id: nat, t: Ticket, bank: Bank, log: seq<Effect>)
    requires CallsHandler(t.action, bank)
    ensures var o := Perform(h, id, t, bank, log); var k := FirstCall(t.action, log); var inner := FirstInner(t.action);
            && k < |o.log| && o.log[k] == Call(id, t.requester, InnerMessage(t, inner.0, inner.1))
            && (t.action.Compound? ==> o.log[|log|].Advance?)
  {
    hide InnerMessage;
    hide ResponseFor;
    hide EncodeChainedResponse;
    hide EncodeConditionalResponse;
    hide SaturatingAdd;
    if t.action.Chained? {
      FirstSegmentFirst(h, id, t, t.action.segments, log);
    }
  }

  lemma FirstSegmentFirst(h: Handler, id: nat, t: Ticket, segs: seq<Segment>, log: seq<Effect>)
    requires segs != []
    ensures var first := log + [Call(id, t.requester, InnerMessage(t, segs[0].control, segs[0].body))];
            first <= RunChain(h, id, t, segs, log).log
  {
    hide InnerMessage;
    ChainEffects(h, id, t, segs[1..], log + [Call(id, t.requester, InnerMessage(t, segs[0].control, segs[0].body))]);
  }

  /** A handler sees the difference: its first call carries another evt. */
  lemma StrippedActsDifferently(h: Handler, id: nat, t: Ticket, bank: Bank, log: seq<Effect>)
    requires t.original.evt != 0 && CallsHandler(t.action, bank)
    ensures Perform(h, id, t.(original := FragmentRuns.Stripped(t.original)), bank, log).log
         != Perform(h, id, t, bank, log).log
  {
    hide Perform;
    hide InnerMessage;
    var t' := t.(original := FragmentRuns.Stripped(t.original));
    var inner := FirstInner(t.action);
    FirstCallIsLogged(h, id, t, bank, log);
    FirstCallIsLogged(h, id, t', bank, log);
    InnerKeepsEvt(t, inner.0, inner.1);
    InnerKeepsEvt(t', inner.0, inner.1);
  }

  /** Whatever an envelope wraps is shorter than its body. */
  lemma EnvelopeShrinks(body: seq<Byte>)
    requires DecodeEnvelope(body).Ok?
    ensures |FirstInner(DecodeEnvelope(body).value.0).1| < |body|
  {
    hide DecodeConditional;
  }

  /** A timestamped message never acts as the envelope its body would be: its one
      call carries the whole body, the envelope's first call carries less. */
  lemma TimestampedActsDifferently(h: Handler, id: nat, requester: StreamId, m: Message, checkConfigured: bool,
                                   bank: Bank, log: seq<Effect>)
    requires m.kind == KIND_LONG && m.mtv
    ensures MeaningOf(h, id, requester, m, checkConfigured, bank, log)
         != MeaningOf(h, id, requester, FragmentRuns.Stripped(m), checkConfigured, bank, log)
  {
    hide DecodeEnvelope;
    hide InnerMessage;
    hide Perform;
    hide Matches;
    var t := Admit(requester, m, true, checkConfigured).value;
    FirstCallIsLogged(h, id, t, bank, log);
    InnerKeepsEvt(t, m.control, m.body);
    var r := Admit(requester, FragmentRuns.Stripped(m), true, checkConfigured);
    if r.Ok? && !IsCancellation(r.value.action) {
      var t' := r.value;
      EnvelopesAreNeverPlain(m.body);
      EnvelopeShrinks(m.body);
      if CallsHandler(t'.action, bank) {
        FirstCallIsLogged(h, id, t', bank, log);
        InnerKeepsEvt(t', FirstInner(t'.action).0, FirstInner(t'.action).1);
      } else {
        NoCallNoEntry(h, id, t', bank, log);
      }
    }
  }

  lemma NoCallNoEntry(h: Handler, id: nat, t: Ticket, bank: Bank, log: seq<Effect>)
    requires !IsCancellation(t.action) && !CallsHandler(t.action, bank)
    ensures var o := Perform(h, id, t, bank, log); |o.log| > |log| ==> o.log[|log|].Advance?
  {
    hide ResponseFor;
    hide EncodeChainedResponse;
    hide EncodeConditionalResponse;
    hide SaturatingAdd;
  }

  /** Through the gateway a request does what it does directly (same refusal, same
      sweep, same handler calls, registers, response and error, for any handler
      and state) if and only if it is not a long message with a valid timestamp,
      and its evt is zero or no handler call shows it. */
  lemma GatewayKeepsMeaningExactlyWhen(h: Handler, id: nat, requester: StreamId, m: Message, checkConfigured: bool,
                                       bank: Bank, log: seq<Effect>)
    ensures MeaningOf(h, id, requester, FragmentRuns.Stripped(m), checkConfigured, bank, log)
         == MeaningOf(h, id, requester, m, checkConfigured, bank, log)
       <==> && !(m.kind == KIND_LONG && m.mtv)
            && (m.evt == 0 || !ReachesHandler(requester, m, checkConfigured, bank))
  {
    hide Perform;
    hide Decoded;
    if m.kind == KIND_LONG && m.mtv {
      TimestampedActsDifferently(h, id, requester, m, checkConfigured, bank, log);
    } else {
      DecodedAgreesExactlyWhen(m);
      var r := Admit(requester, m, true, checkConfigured);
      if r.Ok? {
        if m.evt != 0 && CallsHandler(r.value.action, bank) {
          StrippedActsDifferently(h, id, r.value, bank, log);
        } else if !IsCancellation(r.value.action) {
          StrippedActsAlike(h, id, r.value, bank, log);
        }
      }
    }
  }

  /** For instance, a timestamped one-octet write becomes a CancelAll. */
  lemma TimestampedWriteBecomesCancelAll(m: Message)
    requires m.kind == KIND_LONG && m.mtv && m.body == [6]
    ensures Decoded(m) == Ok((Plain(m.control, m.body), false))
    ensures Decoded(FragmentRuns.Stripped(m)) == Ok((CancelAll, false))
  {
    assert m.body[1..] == [];
  }

  /** And a short OR write (evt 1) reaches the endpoint as a plain set (evt 0). */
  lemma OrWriteBecomesSet(h: Handler, id: nat, requester: StreamId, m: Message, bank: Bank, log: seq<Effect>)
    requires m.kind == KIND_SHORT && m.evt == 1
    ensures var a := MeaningOf(h, id, requester, m, false, bank, log);
            var b := MeaningOf(h, id, requester, FragmentRuns.Stripped(m), false, bank, log);
            && a.Acts? && b.Acts? && |a.outcome.log| == |b.outcome.log| == |log| + 1
            && a.outcome.log[|log|].Call? && a.outcome.log[|log|].msg.evt == 1
            && b.outcome.log[|log|].Call? && b.outcome.log[|log|].msg.evt == 0
  {
  }
}
