/** What one batch of executions can do: every ticket moves forward only, the
    effects are exactly those of executed tickets, and a cancelled ticket never
    acts. */
module LifecycleProofs {
  import opened Bytes
  import opened Outcomes
  import opened Nibbles
  import opened Acf
  import opened Request
  import opened Lifecycle

  // ------------------------------------------------------- ticket evolution

  /** `t'` is `t` with, at most, its state and outcome changed. */
  predicate SameRequest(t: Ticket, t': Ticket) {
    t' == t.(state := t'.state, response := t'.response, err := t'.err)
  }

  predicate Unresolved(t: Ticket) {
    t.response.None? && t.err.None?
  }

  /** Finalized without ever running. */
  predicate ClearedBy(t: Ticket, t': Ticket, err: TicketError) {
    t' == t.(state := Finalized, err := Some(err))
  }

  predicate WasCleared(t: Ticket) {
    t.err == Some(Cancelled) || t.err == Some(Purged)
  }

  ghost predicate MachineOk(m: Machine) {
    forall x :: x in m.tickets && Pending(m.tickets[x]) ==> Unresolved(m.tickets[x])
  }

  /** Tickets keep their requests, finalized ones never change again, pending
      ones that stay pending are untouched, and the log only grows. */
  ghost predicate Evolves(m: Machine, m': Machine) {
    && m'.tickets.Keys == m.tickets.Keys
    && (forall x :: x in m.tickets ==> SameRequest(m.tickets[x], m'.tickets[x]))
    && (forall x :: x in m.tickets && !Pending(m.tickets[x]) ==> m'.tickets[x] == m.tickets[x])
    && (forall x :: x in m.tickets && Pending(m'.tickets[x]) ==> m'.tickets[x] == m.tickets[x])
    && m.log <= m'.log
  }

  lemma EvolvesTransitive(a: Machine, b: Machine, c: Machine)
    requires Evolves(a, b) && Evolves(b, c)
    ensures Evolves(a, c)
  {
    hide Pending;
    forall x | x in a.tickets ensures SameRequest(a.tickets[x], c.tickets[x]) {
      assert SameRequest(a.tickets[x], b.tickets[x]) && SameRequest(b.tickets[x], c.tickets[x]);
    }
  }

  /** `x` was finalized between `m` and `m'`. */
  predicate Newly(m: Machine, m': Machine, x: nat) {
    IsLive(m, x) && !IsLive(m', x)
  }

  // ------------------------------------------------------ effects of one run

  lemma {:induction false} ChainEffects(h: Handler, id: nat, t: Ticket, segs: seq<Segment>, log: seq<Effect>)
    ensures var run := RunChain(h, id, t, segs, log);
            log <= run.log && forall k :: |log| <= k < |run.log| ==> run.log[k].ticket == id
    decreases segs
  {
    if segs != [] {
      var msg := InnerMessage(t, segs[0].control, segs[0].body);
      ChainEffects(h, id, t, segs[1..], log + [Call(id, t.requester, msg)]);
    }
  }

  lemma PerformEffects(h: Handler, id: nat, t: Ticket, bank: Bank, log: seq<Effect>)
    requires !IsCancellation(t.action)
    ensures var o := Perform(h, id, t, bank, log);
            && log <= o.log && (forall k :: |log| <= k < |o.log| ==> o.log[k].ticket == id)
            && o.err != Some(Cancelled) && o.err != Some(Purged)
            && (o.log == log ==> o.bank == bank)
  {
    hide InnerMessage;
    hide ResponseFor;
    hide EncodeChainedResponse;
    hide EncodeConditionalResponse;
    hide SaturatingAdd;
    if t.action.Chained? {
      ChainEffects(h, id, t, t.action.segments, log);
    }
  }

  lemma {:induction false} ClearedIdsMembers(ids: seq<nat>, tickets: Tickets, sel: Selector, except: Option<nat>)
    ensures forall x :: x in ClearedIds(ids, tickets, sel, except) <==>
              x in ids && x in tickets && Clears(sel, except, x, tickets[x])
  {
    hide Clears;
    if ids != [] {
      assert ids == ids[..|ids| - 1] + [ids[|ids| - 1]];
      ClearedIdsMembers(ids[..|ids| - 1], tickets, sel, except);
    }
  }

  predicate Increasing(s: seq<nat>) {
    forall i, j :: 0 <= i < j < |s| ==> s[i] < s[j]
  }

  predicate Distinct(s: seq<nat>) {
    forall i, j :: 0 <= i < j < |s| ==> s[i] != s[j]
  }

  lemma {:induction false} ClearedIdsIncreasing(ids: seq<nat>, tickets: Tickets, sel: Selector, except: Option<nat>)
    requires Increasing(ids)
    ensures Increasing(ClearedIds(ids, tickets, sel, except))
  {
    hide Clears;
    if ids != [] {
      var rest, last := ids[..|ids| - 1], ids[|ids| - 1];
      ClearedIdsIncreasing(rest, tickets, sel, except);
      ClearedIdsMembers(rest, tickets, sel, except);
      var c := ClearedIds(rest, tickets, sel, except);
      forall i | 0 <= i < |c| ensures c[i] < last {
        assert c[i] in rest;
      }
    }
  }

  /** What running `id` did, when it was not skipped. */
  ghost predicate Ran(m: Machine, m': Machine, id: nat) {
    && IsLive(m, id) && id in m'.tickets && !Pending(m'.tickets[id]) && !WasCleared(m'.tickets[id])
    && (forall k :: |m.log| <= k < |m'.log| ==> m'.log[k].ticket == id)
    && (m'.log == m.log ==> m'.bank == m.bank)
    && (IsCancellation(m.tickets[id].action) ==> m'.log == m.log && m'.bank == m.bank)
    && (forall x :: Newly(m, m', x) && x != id ==>
          && IsCancellation(m.tickets[id].action) && Picks(SelectorOf(m.tickets[id].action), m.tickets[x])
          && x in m'.tickets && ClearedBy(m.tickets[x], m'.tickets[x], Cancelled))
  }

  /** The list of finalized tickets grew by exactly the newly finalized ones. */
  ghost predicate Reports(m: Machine, m': Machine) {
    && m.done <= m'.done
    && (forall x :: x in m'.done[|m.done|..] <==> Newly(m, m', x))
    && Distinct(m'.done[|m.done|..])
  }

  lemma RunOneExecutes(h: Handler, order: seq<nat>, m: Machine, id: nat)
    requires MachineOk(m) && Increasing(order) && IsLive(m, id) && !IsCancellation(m.tickets[id].action)
    ensures var m' := RunOne(h, order, m, id); Evolves(m, m') && MachineOk(m') && Ran(m, m', id) && Reports(m, m')
  {
    hide Perform;
    var t := m.tickets[id];
    PerformEffects(h, id, t, m.bank, m.log);
    var m' := RunOne(h, order, m, id);
    assert m'.done[|m.done|..] == [id];
  }

  /** What a cancellation leaves behind. */
  ghost predicate CancelShape(m: Machine, m': Machine, id: nat, sel: Selector, ids: seq<nat>) {
    && id in m.tickets && m'.tickets.Keys == m.tickets.Keys && m'.log == m.log && m'.bank == m.bank
    && m'.done == m.done + ([id] + ids)
    && SameRequest(m.tickets[id], m'.tickets[id])
    && m'.tickets[id].state == Finalized && m'.tickets[id].err == m.tickets[id].err
    && (forall x :: x in m.tickets && x != id && Clears(sel, Some(id), x, m.tickets[x]) ==>
          ClearedBy(m.tickets[x], m'.tickets[x], Cancelled))
    && (forall x :: x in m.tickets && x != id && !Clears(sel, Some(id), x, m.tickets[x]) ==>
          m'.tickets[x] == m.tickets[x])
  }

  lemma RunOneCancelShape(h: Handler, order: seq<nat>, m: Machine, id: nat)
    requires IsLive(m, id) && IsCancellation(m.tickets[id].action)
    requires forall x :: x in m.tickets ==> x in order
    ensures var sel := SelectorOf(m.tickets[id].action);
            CancelShape(m, RunOne(h, order, m, id), id, sel, ClearedIds(order, m.tickets, sel, Some(id)))
  {
    hide ResponseFor;
    hide EncodeCancelResponse;
    hide ClearedIds;
    hide Clears;
    var sel := SelectorOf(m.tickets[id].action);
    var ids := ClearedIds(order, m.tickets, sel, Some(id));
    assert m.done + [id] + ids == m.done + ([id] + ids);
  }

  lemma CancelReports(m: Machine, m': Machine, id: nat, sel: Selector, ids: seq<nat>)
    requires CancelShape(m, m', id, sel, ids) && IsLive(m, id)
    requires forall x :: x in ids <==> x in m.tickets && Clears(sel, Some(id), x, m.tickets[x])
    requires Increasing(ids)
    ensures Reports(m, m')
  {
    hide Picks;
    assert m'.done[|m.done|..] == [id] + ids;
    forall x ensures x in [id] + ids <==> Newly(m, m', x) {
      if x in m.tickets && x != id {
        assert Clears(sel, Some(id), x, m.tickets[x]) || m'.tickets[x] == m.tickets[x];
      }
    }
  }

  lemma RunOneCancels(h: Handler, order: seq<nat>, m: Machine, id: nat)
    requires MachineOk(m) && Increasing(order) && IsLive(m, id) && IsCancellation(m.tickets[id].action)
    requires forall x :: x in m.tickets ==> x in order
    ensures var m' := RunOne(h, order, m, id); Evolves(m, m') && MachineOk(m') && Ran(m, m', id) && Reports(m, m')
    ensures m.tickets[id].action.CancelAll? ==>
            var m' := RunOne(h, order, m, id);
            forall x :: x in m.tickets ==> x in m'.tickets && !Pending(m'.tickets[x])
  {
    hide RunOne;
    hide ClearedIds;
    hide Reports;
    hide Increasing;
    var sel := SelectorOf(m.tickets[id].action);
    var ids := ClearedIds(order, m.tickets, sel, Some(id));
    var m' := RunOne(h, order, m, id);
    RunOneCancelShape(h, order, m, id);
    ClearedIdsMembers(order, m.tickets, sel, Some(id));
    ClearedIdsIncreasing(order, m.tickets, sel, Some(id));
    CancelReports(m, m', id, sel, ids);
    hide Picks;
    assert Unresolved(m.tickets[id]);
    assert m.tickets[id].action.CancelAll? ==> forall x :: x in m.tickets ==> Picks(sel, m.tickets[x]) by {
      assert m.tickets[id].action.CancelAll? ==> sel == All;
      PicksAll();
    }
  }

  lemma PicksAll()
    ensures forall t :: Picks(All, t)
  {
  }

  lemma RunOneStep(h: Handler, order: seq<nat>, m: Machine, id: nat)
    requires MachineOk(m) && Increasing(order) && forall x :: x in m.tickets ==> x in order
    ensures var m' := RunOne(h, order, m, id);
            && Evolves(m, m') && MachineOk(m') && Reports(m, m')
            && (if IsLive(m, id) then Ran(m, m', id) else m' == m)
  {
    if !IsLive(m, id) {
      assert m.done[|m.done|..] == [];
    } else if IsCancellation(m.tickets[id].action) {
      RunOneCancels(h, order, m, id);
    } else {
      RunOneExecutes(h, order, m, id);
    }
  }

  // ------------------------------------------------------- a batch of runs

  /** `c` executed in the batch and is what cleared `x`. */
  predicate Canceller(m: Machine, m': Machine, ids: seq<nat>, c: nat, x: nat) {
    && c in ids && c in m.tickets && c in m'.tickets && x in m.tickets
    && IsCancellation(m.tickets[c].action) && Picks(SelectorOf(m.tickets[c].action), m.tickets[x])
    && Newly(m, m', c) && !WasCleared(m'.tickets[c])
  }

  /** Every newly finalized ticket either executed as a member of the batch, or
      was cleared, untouched, by a cancellation that did. */
  ghost predicate Accounted(m: Machine, m': Machine, ids: seq<nat>) {
    forall x :: Newly(m, m', x) && x in m'.tickets ==>
      || (x in ids && !WasCleared(m'.tickets[x]))
      || (ClearedBy(m.tickets[x], m'.tickets[x], Cancelled) && exists c :: Canceller(m, m', ids, c, x))
  }

  /** Every new effect belongs to a ticket of the batch that executed in it, and
      registers change only through logged effects. */
  ghost predicate EffectsOwned(m: Machine, m': Machine, ids: seq<nat>) {
    && (forall k :: |m.log| <= k < |m'.log| ==>
          var x := m'.log[k].ticket;
          x in ids && Newly(m, m', x) && x in m'.tickets && !WasCleared(m'.tickets[x]))
    && (m'.log == m.log ==> m'.bank == m.bank)
  }

  ghost predicate BatchOk(m: Machine, m': Machine, ids: seq<nat>) {
    && Evolves(m, m') && MachineOk(m') && Reports(m, m')
    && (forall x :: x in ids ==> !IsLive(m', x))
    && Accounted(m, m', ids) && EffectsOwned(m, m', ids)
  }

  lemma ReportsTransitive(a: Machine, b: Machine, c: Machine)
    requires Evolves(a, b) && Evolves(b, c) && Reports(a, b) && Reports(b, c)
    ensures Reports(a, c)
  {
    var n, k := |a.done|, |b.done|;
    assert c.done[n..] == b.done[n..] + c.done[k..];
    forall x ensures x in c.done[n..] <==> Newly(a, c, x) {
      assert x in c.done[n..] <==> x in b.done[n..] || x in c.done[k..];
      NewlyTransitive(a, b, c, x);
    }
    assert Distinct(c.done[n..]) by {
      forall i, j | 0 <= i < j < |c.done[n..]| ensures c.done[n..][i] != c.done[n..][j] {
        var p, q := b.done[n..], c.done[k..];
        if i < |p| <= j {
          assert p[i] in p && q[j - |p|] in q;
          assert Newly(a, b, p[i]) && Newly(b, c, q[j - |p|]);
        }
      }
    }
  }

  lemma NewlyTransitive(a: Machine, b: Machine, c: Machine, x: nat)
    requires Evolves(a, b) && Evolves(b, c)
    ensures Newly(a, c, x) <==> Newly(a, b, x) || Newly(b, c, x)
    ensures Newly(a, b, x) && x in c.tickets ==> x in b.tickets && c.tickets[x] == b.tickets[x]
    ensures Newly(b, c, x) ==> x in a.tickets && a.tickets[x] == b.tickets[x]
  {
  }

  lemma AccountedExtends(a: Machine, b: Machine, c: Machine, ids: seq<nat>, id: nat)
    requires Evolves(a, b) && Evolves(b, c) && Accounted(a, b, ids)
    requires c == b || Ran(b, c, id)
    ensures Accounted(a, c, ids + [id])
  {
    hide Picks;
    forall x | Newly(a, c, x) && x in c.tickets
      ensures || (x in ids + [id] && !WasCleared(c.tickets[x]))
              || (ClearedBy(a.tickets[x], c.tickets[x], Cancelled) && exists k :: Canceller(a, c, ids + [id], k, x))
    {
      NewlyTransitive(a, b, c, x);
      if Newly(a, b, x) {
        if ClearedBy(a.tickets[x], b.tickets[x], Cancelled) {
          var k :| Canceller(a, b, ids, k, x);
          NewlyTransitive(a, b, c, k);
          assert Canceller(a, c, ids + [id], k, x);
        }
      } else if x != id {
        NewlyTransitive(a, b, c, id);
        assert a.tickets[id] == b.tickets[id];
        assert Canceller(a, c, ids + [id], id, x);
      }
    }
  }

  lemma EffectsExtend(a: Machine, b: Machine, c: Machine, ids: seq<nat>, id: nat)
    requires Evolves(a, b) && Evolves(b, c) && EffectsOwned(a, b, ids)
    requires c == b || Ran(b, c, id)
    ensures EffectsOwned(a, c, ids + [id])
  {
    hide Pending;
    forall k | |a.log| <= k < |c.log|
      ensures var x := c.log[k].ticket;
              x in ids + [id] && Newly(a, c, x) && x in c.tickets && !WasCleared(c.tickets[x])
    {
      var x := c.log[k].ticket;
      NewlyTransitive(a, b, c, x);
      if k < |b.log| {
        assert b.log[k] == c.log[k];
      }
    }
    assert c.log == a.log ==> b.log == a.log;
  }

  /** The whole batch, whatever is in it. */
  lemma {:induction false} RunAllOk(h: Handler, order: seq<nat>, m: Machine, ids: seq<nat>)
    requires MachineOk(m) && Increasing(order) && forall x :: x in m.tickets ==> x in order
    ensures BatchOk(m, RunAll(h, order, m, ids), ids)
  {
    hide RunOne;
    hide Evolves;
    hide MachineOk;
    hide Reports;
    hide Accounted;
    hide EffectsOwned;
    hide Ran;
    if ids == [] {
      NothingRan(m);
    } else {
      var rest, id := ids[..|ids| - 1], ids[|ids| - 1];
      var b := RunAll(h, order, m, rest);
      var c := RunOne(h, order, b, id);
      RunAllOk(h, order, m, rest);
      EvolvesKeys(m, b);
      RunOneStep(h, order, b, id);
      EvolvesTransitive(m, b, c);
      ReportsTransitive(m, b, c);
      AccountedExtends(m, b, c, rest, id);
      EffectsExtend(m, b, c, rest, id);
      assert ids == rest + [id];
      forall x | x in ids ensures !IsLive(c, x) {
        EvolvesLive(b, c, x);
        if x == id && IsLive(b, id) {
          RanFinalizes(b, c, id);
        }
      }
    }
  }

  lemma NothingRan(m: Machine)
    requires MachineOk(m)
    ensures BatchOk(m, m, [])
  {
    assert m.done[|m.done|..] == [];
  }

  lemma EvolvesKeys(m: Machine, m': Machine)
    requires Evolves(m, m')
    ensures m'.tickets.Keys == m.tickets.Keys
  {
  }

  lemma EvolvesLive(m: Machine, m': Machine, x: nat)
    requires Evolves(m, m')
    ensures IsLive(m', x) ==> IsLive(m, x)
  {
  }

  lemma RanFinalizes(m: Machine, m': Machine, id: nat)
    requires Ran(m, m', id)
    ensures !IsLive(m', id)
  {
  }

  // ------------------------------------------------------------------ chains

  /** The handler calls for the first `n` segments of a chain. */
  function ChainCalls(id: nat, t: Ticket, segs: seq<Segment>): (calls: seq<Effect>)
    ensures |calls| == |segs|
  {
    seq(|segs|, j requires 0 <= j < |segs| =>
      Call(id, t.requester, InnerMessage(t, segs[j].control, segs[j].body)))
  }

  /** Response `j` of `run` is the handler's own answer to segment `j`, given the
      calls before it; a failure can only be the last one. */
  predicate Answers(h: Handler, id: nat, t: Ticket, segs: seq<Segment>, log: seq<Effect>, run: ChainRun, j: nat)
    requires j < |run.responses| <= |segs|
  {
    var r := h(log + ChainCalls(id, t, segs[..j]), t.requester, InnerMessage(t, segs[j].control, segs[j].body));
    if run.responses[j].failed then r.Failed? && j == |run.responses| - 1 && run.failure == Some(r.code)
    else r.Replied? && run.responses[j].body == r.msg.body
  }

  lemma AnswersShift(h: Handler, id: nat, t: Ticket, segs: seq<Segment>, log: seq<Effect>,
                     run: ChainRun, rest: ChainRun, j: nat)
    requires segs != [] && 0 < j < |run.responses| <= |segs| && |rest.responses| == |run.responses| - 1
    requires run.responses[1..] == rest.responses && run.failure == rest.failure
    requires var call := Call(id, t.requester, InnerMessage(t, segs[0].control, segs[0].body));
             Answers(h, id, t, segs[1..], log + [call], rest, j - 1)
    ensures Answers(h, id, t, segs, log, run, j)
  {
    hide InnerMessage;
    hide ChainCalls;
    var call := Call(id, t.requester, InnerMessage(t, segs[0].control, segs[0].body));
    ChainCallsFront(id, t, segs, j);
    var tail := ChainCalls(id, t, segs[1..][..j - 1]);
    assert log + [call] + tail == log + ([call] + tail);
    assert run.responses[j] == run.responses[1..][j - 1];
    assert segs[1..][j - 1] == segs[j];
  }

  /** A chain's handler calls are exactly its segments 0..n-1 in order, where n
      stops at the first failure or at the end; each answer is the handler's own;
      and only the last one can be a failure. */
  lemma {:induction false} ChainRunsAPrefix(h: Handler, id: nat, t: Ticket, segs: seq<Segment>, log: seq<Effect>)
    ensures var run := RunChain(h, id, t, segs, log); var n := |run.responses|;
            && n <= |segs| && run.log == log + ChainCalls(id, t, segs[..n])
            && (run.failure.None? ==> n == |segs|)
            && (run.failure.Some? <==> n > 0 && run.responses[n - 1].failed)
            && (forall j :: 0 <= j < n ==> Answers(h, id, t, segs, log, run, j))
    decreases segs
  {
    hide InnerMessage;
    hide Answers;
    hide ChainCalls;
    assert log + ChainCalls(id, t, segs[..0]) == log;
    if segs != [] {
      var call := Call(id, t.requester, InnerMessage(t, segs[0].control, segs[0].body));
      var run := RunChain(h, id, t, segs, log);
      FirstAnswer(h, id, t, segs, log);
      if h(log, t.requester, call.msg).Failed? {
        ChainCallsFront(id, t, segs, 1);
        assert ChainCalls(id, t, segs[1..][..0]) == [];
      } else {
        var rest := RunChain(h, id, t, segs[1..], log + [call]);
        ChainRunsAPrefix(h, id, t, segs[1..], log + [call]);
        ChainCallsFront(id, t, segs, |run.responses|);
        var tail := ChainCalls(id, t, segs[1..][..|rest.responses|]);
        assert log + [call] + tail == log + ([call] + tail);
        forall j | 0 < j < |run.responses| ensures Answers(h, id, t, segs, log, run, j) {
          AnswersShift(h, id, t, segs, log, run, rest, j);
        }
      }
    }
  }

  lemma FirstAnswer(h: Handler, id: nat, t: Ticket, segs: seq<Segment>, log: seq<Effect>)
    requires segs != []
    ensures var run := RunChain(h, id, t, segs, log); 1 <= |run.responses|
    ensures |RunChain(h, id, t, segs, log).responses| <= |segs| ==>
            Answers(h, id, t, segs, log, RunChain(h, id, t, segs, log), 0)
  {
    hide InnerMessage;
    assert log + ChainCalls(id, t, segs[..0]) == log;
  }

  lemma ChainCallsFront(id: nat, t: Ticket, segs: seq<Segment>, n: nat)
    requires 1 <= n <= |segs|
    ensures ChainCalls(id, t, segs[..n]) ==
            [Call(id, t.requester, InnerMessage(t, segs[0].control, segs[0].body))]
              + ChainCalls(id, t, segs[1..][..n - 1])
  {
    hide InnerMessage;
  }

  /** What the client decodes from a chained ticket's response: one entry per
      attempted segment, and how many there were to attempt. */
  lemma ChainResponseDecodes(h: Handler, id: nat, t: Ticket, bank: Bank, log: seq<Effect>)
    requires t.action.Chained? && |t.action.segments| <= MAX_SEGMENTS
    ensures var o := Perform(h, id, t, bank, log); var run := RunChain(h, id, t, t.action.segments, log);
            && o.response.Some?
            && (DecodeChainedResponse(o.response.value.body) == Ok((run.responses, |t.action.segments|)) <==>
                forall j :: 0 <= j < |run.responses| ==> |run.responses[j].body| <= MAX_BODY)
  {
    hide RunChain;
    hide EncodeChainedResponse;
    hide DecodeChainedResponse;
    ChainRunsAPrefix(h, id, t, t.action.segments, log);
    ChainedResponseRoundTrip(RunChain(h, id, t, t.action.segments, log).responses, |t.action.segments|);
  }

  /** What the log gains from a call of the handler with the ticket's own body. */
  function InnerCall(id: nat, t: Ticket): Effect
    requires t.action.Compound?
  {
    Call(id, t.requester, InnerMessage(t, t.action.control, t.action.body))
  }

  /** A conditional ticket acts exactly when its condition holds of the register
      as it finds it: then the register moves by the saturated step, before the
      one handler call a compound request makes; otherwise nothing happens. The
      response tells the client which, and the value the register is left with. */
  lemma ConditionalOutcome(h: Handler, id: nat, t: Ticket, bank: Bank, log: seq<Effect>)
    requires t.action.Compound? || t.action.CompoundWait?
    ensures var c := t.action.cond; var o := Perform(h, id, t, bank, log);
            var before, after := Get(bank, c.sequencer), Get(o.bank, c.sequencer);
            var matched := match c.op
                           case Equal => before == c.operand
                           case NotEqual => before != c.operand
                           case Less => before < c.operand
                           case LessOrEqual => before <= c.operand
                           case Greater => before > c.operand
                           case GreaterOrEqual => before >= c.operand;
            && (forall s :: s != c.sequencer ==> Get(o.bank, s) == Get(bank, s))
            && after == (if matched then SaturatingAdd(before, c.advance) else before)
            && o.log == log + (if !matched then []
                               else if t.action.Compound? then [Advance(id, c.sequencer, after), InnerCall(id, t)]
                               else [Advance(id, c.sequencer, after)])
            && (o.response.None? <==> o.err.Some?)
            && (o.err.Some? ==> matched && t.action.Compound?)
            && (o.response.Some? ==>
                  var d := DecodeConditionalResponse(o.response.value.body);
                  && d.Ok? && d.value.0 == matched && d.value.1 == after
                  && (!matched || t.action.CompoundWait? ==> d.value.2 == []))
  {
    hide EncodeConditionalResponse;
    hide DecodeConditionalResponse;
    hide SaturatingAdd;
    hide InnerMessage;
    var c := t.action.cond;
    var value := Get(Advanced(c, bank), c.sequencer);
    var matched := Matches(c, bank);
    ConditionalResponseRoundTrip(matched, value, []);
    if t.action.Compound? && matched {
      var advanced := log + [Advance(id, c.sequencer, value)];
      var reply := h(advanced, t.requester, InnerMessage(t, t.action.control, t.action.body));
      assert advanced + [InnerCall(id, t)] == log + [Advance(id, c.sequencer, value), InnerCall(id, t)];
      if reply.Replied? {
        ConditionalResponseRoundTrip(true, value, reply.msg.body);
      }
    }
    assert log + [] == log;
  }

  /** The other tickets that were pending before and are not any more. */
  ghost function ClearedSet(m: Machine, m': Machine, id: nat): set<nat> {
    set x | x in m.tickets && x != id && IsLive(m, x) && !IsLive(m', x)
  }

  lemma ClearedSetIs(m: Machine, m': Machine, id: nat, sel: Selector, ids: seq<nat>)
    requires CancelShape(m, m', id, sel, ids) && Increasing(ids)
    requires forall x :: x in ids <==> x in m.tickets && Clears(sel, Some(id), x, m.tickets[x])
    ensures |ClearedSet(m, m', id)| == |ids|
  {
    hide Picks;
    forall x ensures x in ClearedSet(m, m', id) <==> x in ids {
    }
    hide CancelShape;
    hide ClearedSet;
    IncreasingSize(ids, ClearedSet(m, m', id));
  }

  lemma CancelAnswer(h: Handler, order: seq<nat>, m: Machine, id: nat)
    requires IsLive(m, id) && IsCancellation(m.tickets[id].action)
    ensures var m' := RunOne(h, order, m, id);
            var ids := ClearedIds(order, m.tickets, SelectorOf(m.tickets[id].action), Some(id));
            && id in m'.tickets && m'.tickets[id].response.Some?
            && m'.tickets[id].response.value.body == EncodeCancelResponse(|ids|)
  {
    hide Clear;
    hide ClearedIds;
    hide EncodeCancelResponse;
  }

  lemma CancelResponseExact(n: nat)
    ensures DecodeCancelResponse(EncodeCancelResponse(n)) == Ok(n % 0x1_0000)
  {
    hide Be16;
    hide FromBe16;
  }

  /** A cancellation answers with the number of other tickets it cleared, exactly
      when that number fits sixteen bits. */
  lemma CancellationCounts(h: Handler, order: seq<nat>, m: Machine, id: nat)
    requires Increasing(order) && IsLive(m, id) && IsCancellation(m.tickets[id].action)
    requires forall x :: x in m.tickets ==> x in order
    ensures var m' := RunOne(h, order, m, id); var n := |ClearedSet(m, m', id)|;
            && id in m'.tickets && m'.tickets[id].response.Some?
            && (DecodeCancelResponse(m'.tickets[id].response.value.body) == Ok(n) <==> n <= 0xFFFF)
  {
    hide RunOne;
    hide ClearedIds;
    hide ClearedSet;
    hide CancelShape;
    hide Picks;
    hide DecodeCancelResponse;
    hide EncodeCancelResponse;
    var sel := SelectorOf(m.tickets[id].action);
    var ids := ClearedIds(order, m.tickets, sel, Some(id));
    ClearedIdsMembers(order, m.tickets, sel, Some(id));
    ClearedIdsIncreasing(order, m.tickets, sel, Some(id));
    RunOneCancelShape(h, order, m, id);
    ClearedSetIs(m, RunOne(h, order, m, id), id, sel, ids);
    CancelAnswer(h, order, m, id);
    CancelResponseExact(|ids|);
  }

  lemma {:induction false} IncreasingSize(ids: seq<nat>, s: set<nat>)
    requires Increasing(ids) && forall x :: x in s <==> x in ids
    ensures |s| == |ids|
    decreases ids
  {
    if ids == [] {
      assert s == {};
    } else {
      var n := |ids| - 1;
      var last, rest := ids[n], ids[..n];
      assert ids == rest + [last];
      assert last !in rest;
      IncreasingSize(rest, s - {last});
    }
  }

  // --------------------------------------------- what goes out and comes back

  /** A handler call carries the request: whose it is, where it goes, under which
      number, and every descriptor field that has a meaning to the endpoint. */
  predicate CarriesRequest(e: Effect, t: Ticket) {
    && e.Call? && e.requester == t.requester
    && e.msg.kind == t.original.kind && e.msg.busId == t.original.busId && e.msg.txn == t.original.txn
    && e.msg.evt == t.original.evt && e.msg.readSize == t.original.readSize
    && e.msg.timestamp == t.original.timestamp
    && e.msg.pad == 0 && !e.msg.hs && !e.msg.cs && !e.msg.mtv
  }

  lemma {:induction false} ChainCarriesRequest(h: Handler, id: nat, t: Ticket, segs: seq<Segment>, log: seq<Effect>)
    ensures var l := RunChain(h, id, t, segs, log).log;
            |log| <= |l| && forall k :: |log| <= k < |l| ==> CarriesRequest(l[k], t)
    decreases segs
  {
    hide CarriesRequest;
    if segs != [] {
      var call := Call(id, t.requester, InnerMessage(t, segs[0].control, segs[0].body));
      assert CarriesRequest(call, t) by { InnerCarries(id, t, segs[0].control, segs[0].body); }
      hide InnerMessage;
      ChainCarriesRequest(h, id, t, segs[1..], log + [call]);
      ChainEffects(h, id, t, segs[1..], log + [call]);
    }
  }

  lemma InnerCarries(id: nat, t: Ticket, control: Byte, body: seq<Byte>)
    ensures CarriesRequest(Call(id, t.requester, InnerMessage(t, control, body)), t)
    ensures InnerMessage(t, control, body).control == control && InnerMessage(t, control, body).body == body
  {
  }

  lemma PerformCarriesRequest(h: Handler, id: nat, t: Ticket, bank: Bank, log: seq<Effect>)
    requires !IsCancellation(t.action)
    ensures var l := Perform(h, id, t, bank, log).log;
            |log| <= |l| && forall k :: |log| <= k < |l| && l[k].Call? ==> CarriesRequest(l[k], t)
  {
    hide CarriesRequest;
    hide InnerMessage;
    hide ResponseFor;
    hide EncodeChainedResponse;
    hide EncodeConditionalResponse;
    hide SaturatingAdd;
    hide RunChain;
    match t.action {
      case Chained(segs) => ChainCarriesRequest(h, id, t, segs, log);
      case CompoundWait(_) =>
      case Plain(control, body) => InnerCarries(id, t, control, body);
      case Compound(_, control, body) => InnerCarries(id, t, control, body);
      case Triggered(_, control, body) => InnerCarries(id, t, control, body);
      case Timed(_, control, body) => InnerCarries(id, t, control, body);
    }
  }

  /** Plain, triggered and timed tickets make one call, with their own control and
      body, and their outcome is the handler's, message and error alike. */
  lemma DirectOutcome(h: Handler, id: nat, t: Ticket, bank: Bank, log: seq<Effect>)
    requires t.action.Plain? || t.action.Triggered? || t.action.Timed?
    ensures var o := Perform(h, id, t, bank, log);
            && o.bank == bank && |o.log| == |log| + 1 && o.log[..|log|] == log
            && var e := o.log[|log|];
               && CarriesRequest(e, t) && e.ticket == id
               && e.msg.control == t.action.control && e.msg.body == t.action.body
               && var reply := h(log, t.requester, e.msg);
                  && o.response == Some(reply.msg)
                  && (reply.Replied? ==> o.err == None)
                  && (reply.Failed? ==> o.err == Some(HandlerFailed(reply.code)))
  {
    hide InnerMessage;
    InnerCarries(id, t, t.action.control, t.action.body);
  }

  /** A response of the dispatcher's own: the request's kind, bus and number, the
      response flag with the given read and write bits, nothing else set. */
  predicate AnswersRequest(r: Message, t: Ticket, control: Byte) {
    && r.kind == t.original.kind && r.busId == t.original.busId && r.txn == t.original.txn
    && Flags(r.control) == Nibble(Flags(control).b3, Flags(control).b2, true, false) && Low(r.control) == 0
    && r.pad == 0 && r.evt == 0 && !r.hs && !r.cs && !r.mtv && r.readSize == 0 && r.timestamp == 0
  }

  lemma ResponseAnswers(t: Ticket, body: seq<Byte>)
    ensures AnswersRequest(ResponseFor(t, body), t, InnerControl(t.action)) && ResponseFor(t, body).body == body
  {
    ResponseFlags(InnerControl(t.action));
    hide NibbleOf;
    hide High;
    hide Low;
  }

  lemma ResponseFlags(control: Byte)
    ensures var r := ResponseControl(control);
            Low(r) == 0 && Flags(r) == Nibble(Flags(control).b3, Flags(control).b2, true, false)
  {
    hide NibbleOf;
    hide ValueOf;
    hide High;
    hide Low;
    hide Octet;
    var hi := Nibble(Flags(control).b3, Flags(control).b2, true, false);
    HalvesOfOctet(ValueOf(hi), 0);
    NibbleOfValue(hi);
  }

  /** Every response that is not the handler's own answers its request: with the
      wrapped read and write bits for a compound, with none for the others. */
  lemma OwnResponsesAnswer(h: Handler, order: seq<nat>, m: Machine, id: nat)
    requires IsLive(m, id)
    ensures var t := m.tickets[id]; var m' := RunOne(h, order, m, id);
            && id in m'.tickets
            && (!(t.action.Plain? || t.action.Triggered? || t.action.Timed?) && m'.tickets[id].response.Some? ==>
                  AnswersRequest(m'.tickets[id].response.value, t, if t.action.Compound? then t.action.control else 0))
  {
    hide AnswersRequest;
    hide Clear;
    hide ClearedIds;
    hide InnerMessage;
    hide EncodeChainedResponse;
    hide EncodeConditionalResponse;
    hide EncodeCancelResponse;
    hide SaturatingAdd;
    hide RunChain;
    var t := m.tickets[id];
    forall body ensures AnswersRequest(ResponseFor(t, body), t, InnerControl(t.action)) {
      ResponseAnswers(t, body);
    }
    hide ResponseFor;
  }

  // ---------------------------------------- cancellations and their wording

  /** The sequencer cancellation as its documentation words it: every conditional
      ticket gated on that sequencer. */
  predicate GatedOn(sequencer: Word16, t: Ticket) {
    (t.action.Compound? || t.action.CompoundWait?) && t.action.cond.sequencer == sequencer
  }

  /** The code picks the same tickets except the safety variants among them. */
  lemma GatedAgreesExactlyWhen(sequencer: Word16, t: Ticket)
    ensures Picks(Gated(sequencer), t) == GatedOn(sequencer, t) <==> !(t.safety && GatedOn(sequencer, t))
  {
  }

  /** A sequencer cancellation finalizes exactly the pending non-safety tickets
      gated on its sequencer; a safety one stays as it was. */
  lemma CancelSequencerClearsExactly(h: Handler, order: seq<nat>, m: Machine, id: nat, x: nat)
    requires IsLive(m, id) && m.tickets[id].action.CancelSequencer?
    requires (forall y :: y in m.tickets ==> y in order) && x in m.tickets && x != id
    ensures var m' := RunOne(h, order, m, id); var t := m.tickets[x];
            && x in m'.tickets
            && (if Pending(t) && !t.safety && GatedOn(m.tickets[id].action.sequencer, t)
                then ClearedBy(t, m'.tickets[x], Cancelled)
                else m'.tickets[x] == t)
  {
    hide RunOne;
    hide ClearedIds;
    RunOneCancelShape(h, order, m, id);
  }

  /** For instance: a pending safety Compound on the very sequencer. */
  lemma SafetyCompoundSurvives(h: Handler, cancel: Ticket, safe: Ticket, bank: Bank, log: seq<Effect>)
    requires cancel.action == CancelSequencer(7) && Pending(cancel)
    requires safe.action.Compound? && safe.action.cond.sequencer == 7 && safe.safety && Pending(safe)
    ensures GatedOn(7, safe)
    ensures var m' := RunOne(h, [0, 1], Machine(map[0 := safe, 1 := cancel], bank, log, []), 1);
            0 in m'.tickets && m'.tickets[0] == safe
  {
    hide RunOne;
    var m := Machine(map[0 := safe, 1 := cancel], bank, log, []);
    assert forall y :: y in m.tickets ==> y in [0, 1];
    CancelSequencerClearsExactly(h, [0, 1], m, 1, 0);
  }

  /** The other pending tickets that carry transaction number `txn`. */
  ghost function Matching(m: Machine, txn: Word16, id: nat): set<nat> {
    set x | x in m.tickets && x != id && IsLive(m, x) && m.tickets[x].original.txn == txn
  }

  /** A transaction cancellation is documented to clear the one ticket with that
      number. It clears all of them, whoever asked: the wording holds exactly
      when no two pending tickets share the number. */
  lemma CancelTransactionClearsAll(h: Handler, order: seq<nat>, m: Machine, id: nat)
    requires IsLive(m, id) && m.tickets[id].action.CancelTransaction?
    requires forall y :: y in m.tickets ==> y in order
    ensures var txn := m.tickets[id].action.txn; var cleared := ClearedSet(m, RunOne(h, order, m, id), id);
            && cleared == Matching(m, txn, id)
            && (|cleared| <= 1 <==> forall x, y :: x in Matching(m, txn, id) && y in Matching(m, txn, id) ==> x == y)
  {
    hide RunOne;
    hide ClearedIds;
    RunOneCancelShape(h, order, m, id);
    var txn := m.tickets[id].action.txn;
    var m' := RunOne(h, order, m, id);
    var cleared := ClearedSet(m, m', id);
    forall x ensures x in cleared <==> x in Matching(m, txn, id) {
    }
    assert cleared == Matching(m, txn, id);
    AtMostOne(cleared);
  }

  lemma AtMostOne(s: set<nat>)
    ensures |s| <= 1 <==> forall x, y :: x in s && y in s ==> x == y
  {
    if |s| > 1 {
      var x :| x in s;
      assert |s - {x}| >= 1;
      var y :| y in s - {x};
      assert y in s && x != y;
    }
    if |s| == 1 {
      var x :| x in s;
      assert |s - {x}| == 0;
      assert s == {x};
    }
  }

  /** For instance: two requesters, one number, both cleared. */
  lemma CancelTransactionReachesOthers(h: Handler, cancel: Ticket, a: Ticket, b: Ticket, bank: Bank, log: seq<Effect>)
    requires cancel.action == CancelTransaction(5) && Pending(cancel)
    requires Pending(a) && Pending(b) && a.original.txn == 5 && b.original.txn == 5 && a.requester != b.requester
    ensures var m := Machine(map[0 := a, 1 := b, 2 := cancel], bank, log, []);
            ClearedSet(m, RunOne(h, [0, 1, 2], m, 2), 2) == {0, 1}
  {
    hide RunOne;
    var m := Machine(map[0 := a, 1 := b, 2 := cancel], bank, log, []);
    assert forall y :: y in m.tickets ==> y in [0, 1, 2];
    CancelTransactionClearsAll(h, [0, 1, 2], m, 2);
    hide ClearedSet;
    assert Matching(m, 5, 2) == {0, 1};
  }
}
