/** Every run of a dispatcher: submissions, pumps, watchdog purges and forgets in
    any order, with any clock, trigger counts, safe-state verdicts and handler. */
module DispatcherRuns {
  import opened Bytes
  import opened Outcomes
  import opened Acf
  import opened Request
  import opened Lifecycle
  import opened LifecycleProofs
  import opened Scheduling

  // -------------------------------------------------------------- the system

  datatype System = System(core: Core, checkConfigured: bool)

  datatype Event =
    | Submit(requester: StreamId, req: Message, admitted: bool)
    | Pump(now: Word64, counts: map<Word16, int>, inSafeState: StreamId -> bool)
    | Purge
    | Forget(id: nat)
    | SetSafeStateCheck(configured: bool)

  function InputsOf(s: System, e: Event): Inputs
    requires e.Pump?
  {
    Inputs(e.now, e.counts, s.checkConfigured, e.inSafeState)
  }

  function Step(h: Handler, s: System, e: Event): System {
    match e
    case Submit(requester, req, admitted) =>
      var t := Admit(requester, req, admitted, s.checkConfigured);
      if t.Ok? then s.(core := Submitted(s.core, t.value)) else s
    case Pump(_, _, _) => s.(core := Pumped(h, s.core, InputsOf(s, e)))
    case Purge => s.(core := PurgedCore(s.core))
    case Forget(id) => s.(core := Forgotten(s.core, id))
    case SetSafeStateCheck(configured) => s.(checkConfigured := configured)
  }

  function Run(h: Handler, s: System, evs: seq<Event>): System {
    if evs == [] then s else Step(h, Run(h, s, evs[..|evs| - 1]), evs[|evs| - 1])
  }

  function Fresh(): System {
    System(Core([], map[], 0, map[], []), false)
  }

  // ----------------------------------------------------------- the invariant

  predicate TicketOk(t: Ticket) {
    t.state != Executing && (Pending(t) ==> Unresolved(t))
  }

  /** A ticket that has not run, and if it is finalized never will. */
  predicate Inert(t: Ticket) {
    Pending(t) || WasCleared(t)
  }

  /** `order` lists exactly the live tickets in the order they were issued. */
  ghost predicate Indexed(s: Core) {
    && Increasing(s.order)
    && (forall x :: x in s.tickets <==> x in s.order)
    && (forall x :: x in s.tickets ==> x < s.nextId)
  }

  /** Effects name issued tickets, and never one that is still inert. */
  ghost predicate Attributed(s: Core) {
    && (forall k :: 0 <= k < |s.log| ==> s.log[k].ticket < s.nextId)
    && (forall k :: 0 <= k < |s.log| ==>
          var x := s.log[k].ticket; x in s.tickets ==> !Inert(s.tickets[x]))
  }

  ghost predicate Inv(s: Core) {
    Indexed(s) && Attributed(s) && forall x :: x in s.tickets ==> TicketOk(s.tickets[x])
  }

  // ---------------------------------------------------- pumps, from the batch

  function Before0(s: Core): Machine {
    Machine(StartAll(s.tickets), s.bank, s.log, [])
  }

  lemma StartedOk(s: Core)
    requires Inv(s)
    ensures Runnable(s.order, Before0(s))
    ensures forall x :: x in s.tickets ==>
              && x in Before0(s).tickets && SameRequest(s.tickets[x], Before0(s).tickets[x])
              && (Pending(s.tickets[x]) ==> Before0(s).tickets[x] == s.tickets[x].(state := Started))
              && (!Pending(s.tickets[x]) ==> Before0(s).tickets[x] == s.tickets[x])
  {
  }

  lemma PumpOk(h: Handler, s: Core, i: Inputs)
    requires Inv(s)
    ensures Runnable(s.order, Before0(s))
    ensures BatchOk(Before0(s), PumpMachine(h, s, i), Batch(s, i))
    ensures Sorted(Before0(s).tickets, Batch(s, i))
    ensures forall x :: x in Batch(s, i) <==> x in ReadyIds(i, StartAll(s.tickets), s.order)
  {
    hide RunAll;
    hide BatchOk;
    hide ReadyIds;
    hide Schedule;
    hide Sorted;
    StartedOk(s);
    RunAllOk(h, s.order, Before0(s), Batch(s, i));
    ReadyIncreasing(i, StartAll(s.tickets), s.order);
    ScheduleSorted(StartAll(s.tickets), ReadyIds(i, StartAll(s.tickets), s.order));
  }

  /** A Pump is the reference semantics: of the ready tickets still pending, run
      the first by rank and arrival, one at a time. Handler log, responses and
      registers all agree. */
  lemma PumpIsPriorityRun(h: Handler, s: Core, i: Inputs)
    requires Inv(s)
    ensures Runnable(s.order, Before0(s))
    ensures var ready := ReadyIds(i, StartAll(s.tickets), s.order);
            PumpMachine(h, s, i) == PriorityRun(h, s.order, Before0(s), set x | x in ready)
  {
    hide RunAll;
    hide PriorityRun;
    hide ReadyIds;
    hide Schedule;
    hide Sorted;
    PumpOk(h, s, i);
    var ready := ReadyIds(i, StartAll(s.tickets), s.order);
    SortedRunIsPriorityRun(h, s.order, Before0(s), Batch(s, i), set x | x in ready);
  }

  /** `x` is finalized by this pump. */
  predicate FinalizedBy(s: Core, s': Core, x: nat) {
    x in s.tickets && Pending(s.tickets[x]) && x in s'.tickets && !Pending(s'.tickets[x])
  }

  /** The ids a Pump returns are duplicate-free and exactly those it finalized. */
  lemma PumpReportsExactly(h: Handler, s: Core, i: Inputs)
    requires Inv(s)
    ensures Distinct(PumpMachine(h, s, i).done)
    ensures forall x :: x in PumpMachine(h, s, i).done <==> FinalizedBy(s, Pumped(h, s, i), x)
  {
    hide PumpMachine;
    hide Batch;
    PumpOk(h, s, i);
    StartedOk(s);
    var m := PumpMachine(h, s, i);
    assert m.done[0..] == m.done;
  }

  /** One ticket across one Pump. */
  lemma PumpTicket(h: Handler, s: Core, i: Inputs, x: nat)
    requires Inv(s) && x in s.tickets
    ensures x in Pumped(h, s, i).tickets
    ensures var t, t' := s.tickets[x], Pumped(h, s, i).tickets[x];
            && SameRequest(t, t')
            && (!Pending(t) ==> t' == t)
            && (Pending(t') ==> t' == t.(state := Started))
            && (Pending(t) && !Pending(t') ==>
                  || (x in Batch(s, i) && !WasCleared(t'))
                  || (ClearedBy(t.(state := Started), t', Cancelled) &&
                      exists c :: Canceller(Before0(s), PumpMachine(h, s, i), Batch(s, i), c, x)))
  {
    hide PumpMachine;
    hide Batch;
    hide BatchOk;
    hide Sorted;
    hide Canceller;
    PumpOk(h, s, i);
    StartedOk(s);
    hide StartAll;
    var m0, m := Before0(s), PumpMachine(h, s, i);
    PumpedOk(m0, m, Batch(s, i), x);
  }

  lemma PumpedOk(m0: Machine, m: Machine, ids: seq<nat>, x: nat)
    requires BatchOk(m0, m, ids) && x in m0.tickets
    ensures x in m.tickets && SameRequest(m0.tickets[x], m.tickets[x])
    ensures !Pending(m0.tickets[x]) ==> m.tickets[x] == m0.tickets[x]
    ensures Pending(m.tickets[x]) ==> m.tickets[x] == m0.tickets[x]
    ensures Newly(m0, m, x) ==>
            || (x in ids && !WasCleared(m.tickets[x]))
            || (ClearedBy(m0.tickets[x], m.tickets[x], Cancelled) && exists c :: Canceller(m0, m, ids, c, x))
    ensures x in ids ==> !Pending(m.tickets[x])
  {
    hide Canceller;
    hide Reports;
    hide EffectsOwned;
  }

  /** The effects of one Pump. */
  lemma PumpEffects(h: Handler, s: Core, i: Inputs, k: nat)
    requires Inv(s) && k < |Pumped(h, s, i).log|
    ensures s.log <= Pumped(h, s, i).log
    ensures k >= |s.log| ==>
            var x := Pumped(h, s, i).log[k].ticket;
            && x in s.tickets && Pending(s.tickets[x]) && x in Batch(s, i)
            && x in Pumped(h, s, i).tickets && !Inert(Pumped(h, s, i).tickets[x])
  {
    hide PumpMachine;
    hide Batch;
    hide Reports;
    hide Accounted;
    hide Sorted;
    hide SameRequest;
    hide MachineOk;
    PumpOk(h, s, i);
    StartedOk(s);
    if k >= |s.log| {
      assert Newly(Before0(s), PumpMachine(h, s, i), PumpMachine(h, s, i).log[k].ticket);
    }
  }

  lemma PumpKeys(h: Handler, s: Core, i: Inputs)
    requires Inv(s)
    ensures Pumped(h, s, i).tickets.Keys == s.tickets.Keys
    ensures s.log <= Pumped(h, s, i).log
    ensures Pumped(h, s, i).order == s.order && Pumped(h, s, i).nextId == s.nextId
  {
    hide PumpMachine;
    hide Batch;
    hide Reports;
    hide Accounted;
    hide EffectsOwned;
    hide Sorted;
    PumpOk(h, s, i);
    StartedOk(s);
  }

  // -------------------------------------------------------- invariant, kept

  lemma PumpKeepsInv(h: Handler, s: Core, i: Inputs)
    requires Inv(s)
    ensures Inv(Pumped(h, s, i))
  {
    hide Pumped;
    hide Batch;
    hide SameRequest;
    var s' := Pumped(h, s, i);
    PumpKeys(h, s, i);
    forall x | x in s'.tickets ensures TicketOk(s'.tickets[x]) {
      PumpTicket(h, s, i, x);
    }
    forall k | 0 <= k < |s'.log|
      ensures s'.log[k].ticket < s.nextId
      ensures var x := s'.log[k].ticket; x in s'.tickets ==> !Inert(s'.tickets[x])
    {
      PumpEffects(h, s, i, k);
      if k < |s.log| {
        assert s'.log[k] == s.log[k];
        if s.log[k].ticket in s.tickets {
          PumpTicket(h, s, i, s.log[k].ticket);
        }
      }
    }
  }

  lemma SubmitKeepsInv(s: Core, t: Ticket)
    requires Inv(s) && t.state == Queued && Unresolved(t)
    ensures Inv(Submitted(s, t))
  {
    var s' := Submitted(s, t);
    assert s.nextId !in s.tickets;
    assert Increasing(s'.order) by {
      forall i | 0 <= i < |s.order| ensures s.order[i] < s.nextId {
        assert s.order[i] in s.order;
      }
    }
    forall x ensures x in s'.tickets <==> x in s'.order {
      assert x in s'.order <==> x in s.order || x == s.nextId;
    }
  }

  lemma PurgeKeepsInv(s: Core)
    requires Inv(s)
    ensures Inv(PurgedCore(s))
  {
    hide Picks;
  }

  lemma {:induction false} WithoutMembers(order: seq<nat>, id: nat)
    requires Increasing(order)
    ensures Increasing(Without(order, id))
    ensures forall x :: x in Without(order, id) <==> x in order && x != id
  {
    if order != [] {
      var rest := order[1..];
      WithoutMembers(rest, id);
      assert order == [order[0]] + rest;
      forall x | x in rest ensures order[0] < x {
        var k :| 0 <= k < |rest| && rest[k] == x;
        assert order[k + 1] == x;
      }
      if order[0] != id {
        var w := Without(rest, id);
        forall k | 0 <= k < |w| ensures order[0] < w[k] {
          assert w[k] in w;
        }
      }
    }
  }

  lemma ForgetKeepsInv(s: Core, id: nat)
    requires Inv(s)
    ensures Inv(Forgotten(s, id))
  {
    WithoutMembers(s.order, id);
  }

  lemma StepKeepsInv(h: Handler, s: System, e: Event)
    requires Inv(s.core)
    ensures Inv(Step(h, s, e).core)
  {
    hide Inv;
    hide Pumped;
    hide Submitted;
    hide PurgedCore;
    hide Forgotten;
    hide Decoded;
    match e {
      case Submit(requester, req, admitted) =>
        var t := Admit(requester, req, admitted, s.checkConfigured);
        if t.Ok? {
          SubmitKeepsInv(s.core, t.value);
        }
      case Pump(_, _, _) =>
        PumpKeepsInv(h, s.core, InputsOf(s, e));
      case Purge =>
        PurgeKeepsInv(s.core);
      case Forget(id) =>
        ForgetKeepsInv(s.core, id);
      case SetSafeStateCheck(_) =>
    }
  }

  /** In every reachable state the ids in `order` are the live tickets, strictly
      increasing and below nextId; no ticket is left executing; and no effect
      belongs to a pending, cancelled or purged ticket. */
  lemma {:induction false} RunKeepsInv(h: Handler, evs: seq<Event>)
    ensures Inv(Run(h, Fresh(), evs).core)
  {
    hide Step;
    if evs != [] {
      RunKeepsInv(h, evs[..|evs| - 1]);
      StepKeepsInv(h, Run(h, Fresh(), evs[..|evs| - 1]), evs[|evs| - 1]);
    }
  }

  // ---------------------------------------------------------- forward motion

  function Rank(st: State): nat {
    match st
    case Queued => 0
    case Started => 1
    case Executing => 2
    case Finalized => 3
  }

  /** From `s` to a later state: requests are kept, states only move forward,
      a finalized outcome never changes, only finalized tickets disappear, ids
      are never reused and the log only grows. */
  ghost predicate Later(s: Core, s': Core) {
    && s.nextId <= s'.nextId && s.log <= s'.log
    && (forall x :: x in s.tickets && x in s'.tickets ==>
          && SameRequest(s.tickets[x], s'.tickets[x])
          && Rank(s.tickets[x].state) <= Rank(s'.tickets[x].state)
          && (!Pending(s.tickets[x]) ==> s'.tickets[x] == s.tickets[x]))
    && (forall x :: x in s'.tickets && x !in s.tickets ==> x >= s.nextId)
    && (forall k :: |s.log| <= k < |s'.log| ==>
          var x := s'.log[k].ticket; x < s.nextId ==> x in s.tickets && Pending(s.tickets[x]))
  }

  lemma PumpMovesForward(h: Handler, s: Core, i: Inputs)
    requires Inv(s)
    ensures Later(s, Pumped(h, s, i))
  {
    hide Pumped;
    hide Batch;
    var s' := Pumped(h, s, i);
    PumpKeys(h, s, i);
    forall x | x in s.tickets
      ensures x in s'.tickets && SameRequest(s.tickets[x], s'.tickets[x])
      ensures Rank(s.tickets[x].state) <= Rank(s'.tickets[x].state)
      ensures !Pending(s.tickets[x]) ==> s'.tickets[x] == s.tickets[x]
    {
      PumpTicket(h, s, i, x);
    }
    forall k | |s.log| <= k < |s'.log|
      ensures var x := s'.log[k].ticket; x in s.tickets && Pending(s.tickets[x])
    {
      PumpEffects(h, s, i, k);
    }
  }

  lemma SubmitMovesForward(s: Core, t: Ticket)
    requires Inv(s)
    ensures Later(s, Submitted(s, t))
  {
    assert s.nextId !in s.tickets;
  }

  lemma PurgeMovesForward(s: Core)
    ensures Later(s, PurgedCore(s))
  {
    hide Picks;
  }

  lemma ForgetMovesForward(s: Core, id: nat)
    ensures Later(s, Forgotten(s, id))
    ensures forall x :: x in s.tickets && Pending(s.tickets[x]) ==> x in Forgotten(s, id).tickets
  {
    hide Without;
  }

  lemma StandingStill(s: Core)
    ensures Later(s, s)
  {
  }

  lemma StepMovesForward(h: Handler, s: System, e: Event)
    requires Inv(s.core)
    ensures Later(s.core, Step(h, s, e).core)
    ensures forall x :: x in s.core.tickets && Pending(s.core.tickets[x]) ==> x in Step(h, s, e).core.tickets
  {
    hide Later;
    hide Inv;
    hide Admit;
    hide Pending;
    StandingStill(s.core);
    match e {
      case Submit(requester, req, admitted) =>
        var t := Admit(requester, req, admitted, s.checkConfigured);
        if t.Ok? {
          SubmitMovesForward(s.core, t.value);
        }
      case Pump(_, _, _) =>
        hide Pumped;
        PumpMovesForward(h, s.core, InputsOf(s, e));
        PumpKeys(h, s.core, InputsOf(s, e));
      case Purge =>
        PurgeMovesForward(s.core);
      case Forget(id) =>
        hide Forgotten;
        ForgetMovesForward(s.core, id);
      case SetSafeStateCheck(_) =>
    }
  }

  lemma LaterTransitive(a: Core, b: Core, c: Core)
    requires Later(a, b) && Later(b, c) && Indexed(a) && Indexed(b)
    ensures Later(a, c)
  {
    hide Pending;
    hide Rank;
    forall x | x in a.tickets && x in c.tickets
      ensures SameRequest(a.tickets[x], c.tickets[x])
      ensures Rank(a.tickets[x].state) <= Rank(c.tickets[x].state)
      ensures !Pending(a.tickets[x]) ==> c.tickets[x] == a.tickets[x]
    {
      assert x in b.tickets;
      assert SameRequest(a.tickets[x], b.tickets[x]) && SameRequest(b.tickets[x], c.tickets[x]);
    }
    forall k | |a.log| <= k < |c.log| && c.log[k].ticket < a.nextId
      ensures var x := c.log[k].ticket; x in a.tickets && Pending(a.tickets[x])
    {
      var x := c.log[k].ticket;
      if k < |b.log| {
        assert c.log[k] == b.log[k];
      } else {
        assert x in b.tickets && Pending(b.tickets[x]);
        assert x in a.tickets;
      }
    }
  }

  /** Forward motion over any continuation of any run. */
  lemma {:induction false} RunMovesForward(h: Handler, s: System, evs: seq<Event>)
    requires Inv(s.core)
    ensures Inv(Run(h, s, evs).core) && Later(s.core, Run(h, s, evs).core)
  {
    hide Step;
    if evs != [] {
      var b := Run(h, s, evs[..|evs| - 1]);
      RunMovesForward(h, s, evs[..|evs| - 1]);
      StepKeepsInv(h, b, evs[|evs| - 1]);
      StepMovesForward(h, b, evs[|evs| - 1]);
      hide Later;
      hide Attributed;
      LaterTransitive(s.core, b.core, Run(h, s, evs).core);
    }
  }

  /** A ticket once finalized by cancellation or purge has never called the
      handler or advanced a sequencer, and never will, even once forgotten. */
  lemma ClearedNeverActs(h: Handler, evs: seq<Event>, more: seq<Event>, x: nat, k: nat)
    requires var s := Run(h, Fresh(), evs).core; x in s.tickets && WasCleared(s.tickets[x]) && !Pending(s.tickets[x])
    requires k < |Run(h, Run(h, Fresh(), evs), more).core.log|
    ensures Run(h, Run(h, Fresh(), evs), more).core.log[k].ticket != x
  {
    hide Run;
    hide Fresh;
    RunKeepsInv(h, evs);
    RunMovesForward(h, Run(h, Fresh(), evs), more);
    var a, b := Run(h, Fresh(), evs).core, Run(h, Run(h, Fresh(), evs), more).core;
    if k < |a.log| {
      assert b.log[k] == a.log[k];
    }
  }

  // ------------------------------------------------------------ the safe state

  lemma BatchIsReady(s: Core, i: Inputs, x: nat)
    requires x in Batch(s, i)
    ensures x in s.order && x in ReadyIds(i, StartAll(s.tickets), s.order) && x in s.tickets
  {
    hide Schedule;
    hide ReadyIds;
  }

  lemma BatchGate(s: Core, i: Inputs, x: nat)
    requires Inv(s) && x in Batch(s, i)
    ensures x in s.tickets && GateOpen(i, s.tickets[x]) && IsLive(Before0(s), x)
    ensures s.tickets[x].action.Timed? ==> i.now >= s.tickets[x].action.at
  {
    hide Batch;
    hide StartAll;
    hide ReadyIds;
    BatchIsReady(s, i, x);
    StartedOk(s);
    var p :| 0 <= p < |s.order| && s.order[p] == x;
    ReadyMember(i, StartAll(s.tickets), s.order, p);
    hide Inv;
    hide Runnable;
    hide GateOpen;
    hide Competing;
    assert SameRequest(s.tickets[x], Before0(s).tickets[x]);
    GateOfRequest(i, s.tickets[x], Before0(s).tickets[x]);
  }

  lemma GateOfRequest(i: Inputs, t: Ticket, t': Ticket)
    requires SameRequest(t, t')
    ensures GateOpen(i, t) == GateOpen(i, t')
  {
  }

  /** Every handler call and register change of a Pump is made by a ticket that
      was pending before it, not before its target time, and, for a safety
      ticket, with the gate true for its requester. */
  lemma EffectsPassTheGate(h: Handler, s: Core, i: Inputs, k: nat)
    requires Inv(s) && |s.log| <= k < |Pumped(h, s, i).log|
    ensures var x := Pumped(h, s, i).log[k].ticket;
            && x in s.tickets && Pending(s.tickets[x])
            && (s.tickets[x].safety ==> i.checkConfigured && i.inSafeState(s.tickets[x].requester))
            && (s.tickets[x].action.Timed? ==> i.now >= s.tickets[x].action.at)
  {
    hide Pumped;
    hide Batch;
    hide Inv;
    PumpEffects(h, s, i, k);
    BatchGate(s, i, Pumped(h, s, i).log[k].ticket);
  }

  /** Event `p` of a run is a Pump that appended entry `k` of the log, for a
      ticket that was pending, due, and allowed by the gate at that moment. */
  ghost predicate AppendedAt(h: Handler, evs: seq<Event>, p: nat, k: nat) {
    && p < |evs| && evs[p].Pump?
    && var before, after := Run(h, Fresh(), evs[..p]), Run(h, Fresh(), evs[..p + 1]);
       && |before.core.log| <= k < |after.core.log|
       && var x := after.core.log[k].ticket;
          && x in before.core.tickets
          && var t := before.core.tickets[x];
             && Pending(t)
             && (t.safety ==> before.checkConfigured && evs[p].inSafeState(t.requester))
             && (t.action.Timed? ==> evs[p].now >= t.action.at)
  }

  /** Over a whole run: every handler call and register change in the log was
      appended by one Pump of that run with the gates of that Pump passed, and
      has stood unchanged since. */
  lemma {:induction false} RunEffectsPassTheGate(h: Handler, evs: seq<Event>, k: nat)
    requires k < |Run(h, Fresh(), evs).core.log|
    ensures exists p :: 0 <= p < |evs| && AppendedAt(h, evs, p, k)
                        && Run(h, Fresh(), evs).core.log[k] == Run(h, Fresh(), evs[..p + 1]).core.log[k]
    decreases |evs|
  {
    hide Step;
    var n := |evs| - 1;
    var rest, e := evs[..n], evs[n];
    var s := Run(h, Fresh(), rest);
    assert Run(h, Fresh(), evs) == Step(h, s, e);
    assert evs[..n + 1] == evs;
    RunKeepsInv(h, rest);
    hide Run;
    hide Inv;
    if k < |s.core.log| {
      RunEffectsPassTheGate(h, rest, k);
      var p :| 0 <= p < |rest| && AppendedAt(h, rest, p, k)
               && s.core.log[k] == Run(h, Fresh(), rest[..p + 1]).core.log[k];
      assert rest[..p + 1] == evs[..p + 1] && rest[..p] == evs[..p];
      AppendedLonger(h, evs, p, k);
      StepMovesForward(h, s, e);
      assert s.core.log <= Step(h, s, e).core.log;
    } else {
      OnlyPumpsAppend(h, s, e);
      AppendedNow(h, evs, k);
    }
  }

  lemma AppendedLonger(h: Handler, evs: seq<Event>, p: nat, k: nat)
    requires evs != [] && p < |evs| - 1 && AppendedAt(h, evs[..|evs| - 1], p, k)
    ensures AppendedAt(h, evs, p, k)
  {
    hide Run;
    var rest := evs[..|evs| - 1];
    assert rest[..p + 1] == evs[..p + 1] && rest[..p] == evs[..p];
  }

  lemma OnlyPumpsAppend(h: Handler, s: System, e: Event)
    ensures !e.Pump? ==> Step(h, s, e).core.log == s.core.log
  {
    hide Admit;
    hide Clear;
    hide Without;
    match e {
      case Submit(_, _, _) =>
      case Pump(_, _, _) =>
      case Purge =>
      case Forget(_) =>
      case SetSafeStateCheck(_) =>
    }
  }

  lemma AppendedNow(h: Handler, evs: seq<Event>, k: nat)
    requires evs != [] && evs[|evs| - 1].Pump?
    requires var s := Run(h, Fresh(), evs[..|evs| - 1]);
             Inv(s.core) && |s.core.log| <= k < |Step(h, s, evs[|evs| - 1]).core.log|
    ensures AppendedAt(h, evs, |evs| - 1, k)
  {
    hide Pumped;
    hide Inv;
    var n := |evs| - 1;
    var s := Run(h, Fresh(), evs[..n]);
    assert evs[..n + 1] == evs;
    EffectsPassTheGate(h, s.core, InputsOf(s, evs[n]), k);
  }

  /** In this Pump safety ticket `x` executed with its gate open, or was cleared by
      a CancelAll or a CancelTransaction with its number that executed there. */
  ghost predicate LeavesSafely(h: Handler, s: System, e: Event, x: nat) {
    && e.Pump? && x in s.core.tickets
    && var i, t := InputsOf(s, e), s.core.tickets[x];
       var m := PumpMachine(h, s.core, i);
       && x in m.tickets
       && (|| (&& x in Batch(s.core, i) && i.checkConfigured && i.inSafeState(t.requester)
               && !Pending(m.tickets[x]) && !WasCleared(m.tickets[x]))
           || (&& ClearedBy(t.(state := Started), m.tickets[x], Cancelled)
               && exists c :: Canceller(Before0(s.core), m, Batch(s.core, i), c, x)
                              && CancelsSafety(Before0(s.core).tickets[c].action, t)))
  }

  /** No other step takes a safety ticket out of the pending set: no purge, forget,
      sequencer cancellation or withdrawn check. */
  lemma SafetyTicketsLeaveOnlySafely(h: Handler, s: System, e: Event, x: nat)
    requires Inv(s.core) && IsSafe(s, x) && !IsSafe(Step(h, s, e), x)
    ensures LeavesSafely(h, s, e, x)
  {
    hide Batch;
    hide PumpMachine;
    hide Canceller;
    if !e.Pump? {
      OnlyPumpsTouchSafety(h, s, e, x);
      assert false;
    }
    var i := InputsOf(s, e);
    PumpTicket(h, s.core, i, x);
    if !WasCleared(PumpMachine(h, s.core, i).tickets[x]) {
      BatchGate(s.core, i, x);
    } else {
      var c :| Canceller(Before0(s.core), PumpMachine(h, s.core, i), Batch(s.core, i), c, x);
      SafetyCanceller(h, s.core, i, c, x);
    }
  }

  /** `x` is a pending safety ticket. */
  predicate IsSafe(s: System, x: nat) {
    x in s.core.tickets && s.core.tickets[x].safety && Pending(s.core.tickets[x])
  }

  /** Over any continuation of any run: a safety ticket that is no longer pending
      left in one of its Pumps, in one of those two ways. */
  lemma {:induction false} SafetyTicketsLeaveInAPump(h: Handler, s: System, evs: seq<Event>, x: nat)
    requires Inv(s.core) && IsSafe(s, x) && !IsSafe(Run(h, s, evs), x)
    ensures exists p :: 0 <= p < |evs| && LeavesSafely(h, Run(h, s, evs[..p]), evs[p], x)
    decreases |evs|
  {
    hide Step;
    hide LeavesSafely;
    var n := |evs| - 1;
    var rest := evs[..n];
    RunMovesForward(h, s, rest);
    if IsSafe(Run(h, s, rest), x) {
      hide Inv;
      assert Run(h, s, evs) == Step(h, Run(h, s, rest), evs[n]);
      SafetyTicketsLeaveOnlySafely(h, Run(h, s, rest), evs[n], x);
    } else {
      SafetyTicketsLeaveInAPump(h, s, rest, x);
      var p :| 0 <= p < |rest| && LeavesSafely(h, Run(h, s, rest[..p]), rest[p], x);
      assert rest[..p] == evs[..p] && rest[p] == evs[p];
    }
  }

  /** The two cancellations that reach safety tickets. */
  predicate CancelsSafety(a: Action, t: Ticket) {
    a == CancelAll || a == CancelTransaction(t.original.txn)
  }

  lemma SafetyCanceller(h: Handler, s: Core, i: Inputs, c: nat, x: nat)
    requires Inv(s) && x in s.tickets && s.tickets[x].safety
    requires Canceller(Before0(s), PumpMachine(h, s, i), Batch(s, i), c, x)
    ensures c in Before0(s).tickets && CancelsSafety(Before0(s).tickets[c].action, s.tickets[x])
  {
    hide PumpMachine;
    hide Batch;
    StartedOk(s);
  }

  lemma OnlyPumpsTouchSafety(h: Handler, s: System, e: Event, x: nat)
    requires x in s.core.tickets && s.core.tickets[x].safety && Pending(s.core.tickets[x])
    requires x < s.core.nextId && !e.Pump?
    ensures x in Step(h, s, e).core.tickets && Pending(Step(h, s, e).core.tickets[x])
  {
    hide Admit;
    hide Without;
    match e {
      case Submit(_, _, _) =>
      case Purge =>
      case Forget(_) =>
      case SetSafeStateCheck(_) =>
    }
  }

  /** The purge finalizes exactly the pending tickets that are not safety ones,
      and changes nothing else. */
  lemma PurgeIsExact(s: Core, x: nat)
    requires Inv(s) && x in s.tickets
    ensures x in PurgedCore(s).tickets
    ensures if Pending(s.tickets[x]) && !s.tickets[x].safety
            then ClearedBy(s.tickets[x], PurgedCore(s).tickets[x], Purged)
            else PurgedCore(s).tickets[x] == s.tickets[x]
    ensures PurgedCore(s).log == s.log && PurgedCore(s).bank == s.bank && PurgedCore(s).order == s.order
  {
  }

  // ---------------------------------------------------------------- progress

  /** Whatever is pending, not a safety ticket, and neither triggered nor timed
      is finalized by the next Pump. */
  lemma PumpFinalizesTheUnconditional(h: Handler, s: Core, i: Inputs, x: nat)
    requires Inv(s) && x in s.tickets && Pending(s.tickets[x])
    requires !s.tickets[x].safety && !s.tickets[x].action.Triggered? && !s.tickets[x].action.Timed?
    ensures FinalizedBy(s, Pumped(h, s, i), x)
  {
    hide PumpMachine;
    hide Batch;
    hide BatchOk;
    hide Sorted;
    PumpOk(h, s, i);
    StartedOk(s);
    var p :| 0 <= p < |s.order| && s.order[p] == x;
    ReadyMember(i, StartAll(s.tickets), s.order, p);
    assert x in Batch(s, i);
    PumpedOk(Before0(s), PumpMachine(h, s, i), Batch(s, i), x);
  }

  /** A triggered or timed ticket whose own condition fails stays pending unless
      something in the same Pump cancels it. */
  lemma UnreadyStaysPending(h: Handler, s: Core, i: Inputs, x: nat)
    requires Inv(s) && FinalizedBy(s, Pumped(h, s, i), x) && x !in Batch(s, i)
    ensures Pumped(h, s, i).tickets[x].err == Some(Cancelled)
  {
    hide Pumped;
    hide Batch;
    hide Inv;
    PumpTicket(h, s, i, x);
  }

  // --------------------------------------------------------------- CancelAll

  lemma {:induction false} CancellationsAreSilent(h: Handler, order: seq<nat>, m: Machine, ids: seq<nat>)
    requires Runnable(order, m)
    requires forall x :: x in ids ==> x in m.tickets && IsCancellation(m.tickets[x].action)
    ensures RunAll(h, order, m, ids).log == m.log && RunAll(h, order, m, ids).bank == m.bank
  {
    hide RunOne;
    hide IsCancellation;
    if ids != [] {
      var rest, id := ids[..|ids| - 1], ids[|ids| - 1];
      var b := RunAll(h, order, m, rest);
      CancellationsAreSilent(h, order, m, rest);
      RunAllOk(h, order, m, rest);
      assert SameRequest(m.tickets[id], b.tickets[id]);
      RunOneStep(h, order, b, id);
    }
  }

  lemma {:induction false} NothingLiveNothingRuns(h: Handler, order: seq<nat>, m: Machine, ids: seq<nat>)
    requires forall x :: x in m.tickets ==> !Pending(m.tickets[x])
    ensures RunAll(h, order, m, ids) == m
  {
    if ids != [] {
      NothingLiveNothingRuns(h, order, m, ids[..|ids| - 1]);
    }
  }

  lemma {:induction false} RunAllSplit(h: Handler, order: seq<nat>, m: Machine, a: seq<nat>, b: seq<nat>)
    ensures RunAll(h, order, m, a + b) == RunAll(h, order, RunAll(h, order, m, a), b)
    decreases b
  {
    hide RunOne;
    if b == [] {
      assert a + b == a;
    } else {
      assert (a + b)[..|a + b| - 1] == a + b[..|b| - 1];
      RunAllSplit(h, order, m, a, b[..|b| - 1]);
    }
  }

  lemma RankZeroIsCancellation(a: Action)
    ensures Priority(a) == 0 <==> IsCancellation(a)
  {
  }

  /** From a sorted batch with a CancelAll in it: either an earlier cancellation
      clears that CancelAll, or the batch as a whole is silent and total. */
  lemma CancelAllRun(h: Handler, order: seq<nat>, m0: Machine, ids: seq<nat>, p: nat)
    requires Runnable(order, m0) && Sorted(m0.tickets, ids) && p < |ids| && m0.tickets[ids[p]].action == CancelAll
    ensures var m := RunAll(h, order, m0, ids);
            || !IsLive(RunAll(h, order, m0, ids[..p]), ids[p])
            || (m.log == m0.log && m.bank == m0.bank && forall x :: x in m.tickets ==> !Pending(m.tickets[x]))
  {
    hide RunAll;
    hide RunOne;
    hide Reports;
    hide Accounted;
    hide EffectsOwned;
    hide Priority;
    var a, c, b := ids[..p], ids[p], ids[p + 1..];
    RankZeroIsCancellation(CancelAll);
    forall x | x in a ensures x in m0.tickets && IsCancellation(m0.tickets[x].action) {
      var q :| 0 <= q < p && ids[q] == x;
      assert Before(m0.tickets, ids[q], ids[p]);
      RankZeroIsCancellation(m0.tickets[x].action);
    }
    CancellationsAreSilent(h, order, m0, a);
    RunAllOk(h, order, m0, a);
    var m1 := RunAll(h, order, m0, a);
    if IsLive(m1, c) {
      assert SameRequest(m0.tickets[c], m1.tickets[c]);
      CancelAllStep(h, order, m1, c);
      assert ids == (a + [c]) + b;
      RunAllSplit(h, order, m0, a + [c], b);
      RunAllSplit(h, order, m0, a, [c]);
      OneRun(h, order, m1, c);
      NothingLiveNothingRuns(h, order, RunOne(h, order, m1, c), b);
    }
  }

  lemma CancelAllStep(h: Handler, order: seq<nat>, m: Machine, c: nat)
    requires Runnable(order, m) && IsLive(m, c) && m.tickets[c].action == CancelAll
    ensures var m' := RunOne(h, order, m, c);
            m'.log == m.log && m'.bank == m.bank && forall x :: x in m'.tickets ==> !Pending(m'.tickets[x])
  {
    hide RunOne;
    hide Reports;
    RunOneCancels(h, order, m, c);
  }

  /** If a CancelAll executes in a Pump, that Pump makes no handler call, changes
      no register and leaves nothing pending. */
  lemma CancelAllIsTotal(h: Handler, s: Core, i: Inputs, c: nat)
    requires Inv(s) && c in s.tickets && s.tickets[c].action == CancelAll
    requires FinalizedBy(s, Pumped(h, s, i), c) && !WasCleared(Pumped(h, s, i).tickets[c])
    ensures Pumped(h, s, i).log == s.log && Pumped(h, s, i).bank == s.bank
    ensures forall x :: x in Pumped(h, s, i).tickets ==> !Pending(Pumped(h, s, i).tickets[x])
  {
    hide Batch;
    hide RunAll;
    hide BatchOk;
    hide Canceller;
    PumpOk(h, s, i);
    StartedOk(s);
    PumpTicket(h, s, i, c);
    var ids, m0 := Batch(s, i), Before0(s);
    assert c in ids;
    var p :| 0 <= p < |ids| && ids[p] == c;
    CancelAllRun(h, s.order, m0, ids, p);
    if !IsLive(RunAll(h, s.order, m0, ids[..p]), c) {
      assert c !in ids[..p] by { SortedDistinct(m0.tickets, ids, p); }
      CancelledStaysCancelled(h, s, i, ids[..p], c);
      assert false;
    }
  }

  lemma SortedDistinct(tickets: Tickets, ids: seq<nat>, p: nat)
    requires Sorted(tickets, ids) && p < |ids|
    ensures ids[p] !in ids[..p]
  {
    hide Priority;
  }

  lemma OneRun(h: Handler, order: seq<nat>, m: Machine, c: nat)
    ensures RunAll(h, order, m, [c]) == RunOne(h, order, m, c)
  {
    var one := [c];
    assert one[..0] == [];
    assert RunAll(h, order, m, one[..0]) == m;
  }

  /** If `c` is no longer live once an initial part of the batch without it has
      run, then it was cleared, and remains so to the end of the Pump. */
  lemma CancelledStaysCancelled(h: Handler, s: Core, i: Inputs, a: seq<nat>, c: nat)
    requires Inv(s) && c in s.tickets && Pending(s.tickets[c]) && c !in a && a <= Batch(s, i)
    requires !IsLive(RunAll(h, s.order, Before0(s), a), c)
    ensures c in Pumped(h, s, i).tickets && WasCleared(Pumped(h, s, i).tickets[c])
  {
    hide Batch;
    hide RunAll;
    hide BatchOk;
    hide Canceller;
    StartedOk(s);
    var m0, ids := Before0(s), Batch(s, i);
    var m1 := RunAll(h, s.order, m0, a);
    RunAllOk(h, s.order, m0, a);
    PumpedOk(m0, m1, a, c);
    assert WasCleared(m1.tickets[c]);
    assert ids == a + ids[|a|..];
    RunAllSplit(h, s.order, m0, a, ids[|a|..]);
    BatchKeepsRunnable(h, s.order, m0, a);
    RunAllOk(h, s.order, m1, ids[|a|..]);
    PumpedOk(m1, RunAll(h, s.order, m1, ids[|a|..]), ids[|a|..], c);
  }

  lemma BatchKeepsRunnable(h: Handler, order: seq<nat>, m: Machine, ids: seq<nat>)
    requires Runnable(order, m)
    ensures Runnable(order, RunAll(h, order, m, ids))
  {
    hide RunAll;
    hide Reports;
    hide Accounted;
    hide EffectsOwned;
    RunAllOk(h, order, m, ids);
  }
}
