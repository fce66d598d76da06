/** Which tickets a Pump runs, and in what order. */
module Scheduling {
  import opened Bytes
  import opened Request
  import opened Lifecycle
  import opened LifecycleProofs

  // ------------------------------------------------------------ the schedule

  predicate Sorted(tickets: Tickets, s: seq<nat>) {
    && (forall x :: x in s ==> x in tickets)
    && forall i, j :: 0 <= i < j < |s| ==> Before(tickets, s[i], s[j])
  }

  lemma {:induction false} InsertSorted(tickets: Tickets, sorted: seq<nat>, id: nat)
    requires id in tickets && Sorted(tickets, sorted) && forall x :: x in sorted ==> x < id
    ensures Sorted(tickets, Insert(tickets, sorted, id))
  {
    hide Priority;
    InsertMembers(tickets, sorted, id);
    if sorted != [] {
      var n := |sorted| - 1;
      var last := sorted[n];
      if Priority(tickets[id].action) < Priority(tickets[last].action) {
        assert forall x :: x in sorted[..n] ==> x in sorted;
        InsertSorted(tickets, sorted[..n], id);
        InsertMembers(tickets, sorted[..n], id);
        var front := Insert(tickets, sorted[..n], id);
        forall i | 0 <= i < |front| ensures Before(tickets, front[i], last) {
          assert front[i] in front;
          if front[i] != id {
            var k :| 0 <= k < n && sorted[k] == front[i];
          }
        }
      } else {
        forall i | 0 <= i < |sorted| ensures Before(tickets, sorted[i], id) {
          assert sorted[i] in sorted;
          assert i == n || Before(tickets, sorted[i], last);
        }
      }
    }
  }

  /** The schedule is the batch in (rank, arrival) order... */
  lemma {:induction false} ScheduleSorted(tickets: Tickets, ids: seq<nat>)
    requires (forall x :: x in ids ==> x in tickets) && Increasing(ids)
    ensures Sorted(tickets, Schedule(tickets, ids))
  {
    hide Insert;
    if ids != [] {
      var n := |ids| - 1;
      ScheduleSorted(tickets, ids[..n]);
      forall x | x in ids[..n] ensures x < ids[n] {
        var k :| 0 <= k < n && ids[k] == x;
      }
      InsertSorted(tickets, Schedule(tickets, ids[..n]), ids[n]);
    }
  }

  /** ... and there is only one such order. */
  lemma {:induction false} SortedUnique(tickets: Tickets, a: seq<nat>, b: seq<nat>)
    requires Sorted(tickets, a) && Sorted(tickets, b) && forall x :: x in a <==> x in b
    ensures a == b
    decreases |a|
  {
    hide Priority;
    assert b != [] ==> b[0] in a;
    if a != [] {
      var x := a[|a| - 1];
      assert x in b;
      var y := b[|b| - 1];
      assert y in a;
      var i :| 0 <= i < |b| && b[i] == x;
      var j :| 0 <= j < |a| && a[j] == y;
      assert x == y;
      var a', b' := a[..|a| - 1], b[..|b| - 1];
      forall z ensures z in a' <==> z in b' {
        InitMembers(tickets, a, z);
        InitMembers(tickets, b, z);
      }
      SortedUnique(tickets, a', b');
      assert a == a' + [x] && b == b' + [y];
    }
  }

  lemma InitMembers(tickets: Tickets, s: seq<nat>, z: nat)
    requires s != [] && Sorted(tickets, s)
    ensures z in s[..|s| - 1] <==> z in s && z != s[|s| - 1]
  {
    hide Priority;
    if z in s[..|s| - 1] {
      var k :| 0 <= k < |s| - 1 && s[k] == z;
    }
  }

  // ------------------------------------------------- the reference semantics

  ghost function Live(m: Machine, ids: set<nat>): set<nat> {
    set x | x in ids && IsLive(m, x)
  }

  /** `x` comes before every other member of `live`. */
  ghost predicate IsLeast(m: Machine, live: set<nat>, x: nat) {
    x in live && x in m.tickets && forall y :: y in live && y != x ==> y in m.tickets && Before(m.tickets, x, y)
  }

  lemma LeastExists(m: Machine, live: set<nat>)
    requires live != {} && forall x :: x in live ==> x in m.tickets
    ensures exists x :: IsLeast(m, live, x)
    decreases |live|
  {
    hide Priority;
    var y :| y in live;
    if live == {y} {
      assert IsLeast(m, live, y);
    } else {
      var rest := live - {y};
      assert |rest| < |live|;
      LeastExists(m, rest);
      var x :| IsLeast(m, rest, x);
      if Before(m.tickets, x, y) {
        assert IsLeast(m, live, x);
      } else {
        assert IsLeast(m, live, y);
      }
    }
  }

  ghost predicate Runnable(order: seq<nat>, m: Machine) {
    MachineOk(m) && Increasing(order) && forall x :: x in m.tickets ==> x in order
  }

  lemma RunOneShrinks(h: Handler, order: seq<nat>, m: Machine, ids: set<nat>, x: nat)
    requires Runnable(order, m) && x in ids && IsLive(m, x)
    ensures Runnable(order, RunOne(h, order, m, x))
    ensures Live(RunOne(h, order, m, x), ids) <= Live(m, ids) - {x}
    ensures |Live(RunOne(h, order, m, x), ids)| < |Live(m, ids)|
  {
    hide RunOne;
    hide Reports;
    RunOneStep(h, order, m, x);
    var a, b := Live(m, ids), Live(RunOne(h, order, m, x), ids);
    assert b <= a - {x};
    SubsetSize(b, a - {x});
  }

  lemma {:induction false} SubsetSize(a: set<nat>, b: set<nat>)
    requires a <= b
    ensures |a| <= |b|
    decreases |b|
  {
    if a != {} {
      var x :| x in a;
      SubsetSize(a - {x}, b - {x});
    }
  }

  ghost function Least(m: Machine, live: set<nat>): (x: nat)
    requires live != {} && forall x :: x in live ==> x in m.tickets
    ensures IsLeast(m, live, x)
  {
    LeastExists(m, live);
    var x :| IsLeast(m, live, x);
    x
  }

  /** One at a time: of the ready tickets still pending, run the one that comes
      first by rank and arrival, and look again. */
  ghost function PriorityRun(h: Handler, order: seq<nat>, m: Machine, ids: set<nat>): Machine
    requires Runnable(order, m)
    decreases |Live(m, ids)|
  {
    if Live(m, ids) == {} then m
    else
      var x := Least(m, Live(m, ids));
      RunOneShrinks(h, order, m, ids, x);
      PriorityRun(h, order, RunOne(h, order, m, x), ids)
  }

  lemma LeastUnique(m: Machine, live: set<nat>, x: nat, y: nat)
    requires IsLeast(m, live, x) && IsLeast(m, live, y)
    ensures x == y
  {
    hide Priority;
  }

  lemma {:induction false} RunAllFront(h: Handler, order: seq<nat>, m: Machine, x: nat, rest: seq<nat>)
    ensures RunAll(h, order, m, [x] + rest) == RunAll(h, order, RunOne(h, order, m, x), rest)
    decreases rest
  {
    hide RunOne;
    if rest == [] {
      var one := [x];
      assert [x] + rest == one && one[..0] == [];
    } else {
      var n := |rest| - 1;
      assert ([x] + rest)[..n + 1] == [x] + rest[..n];
      RunAllFront(h, order, m, x, rest[..n]);
    }
  }

  lemma SortedStable(m: Machine, m': Machine, s: seq<nat>)
    requires Evolves(m, m') && Sorted(m.tickets, s)
    ensures Sorted(m'.tickets, s)
  {
    hide Priority;
    forall x | x in s ensures x in m'.tickets && m'.tickets[x].action == m.tickets[x].action {
      assert SameRequest(m.tickets[x], m'.tickets[x]);
    }
    forall i, j | 0 <= i < j < |s| ensures Before(m'.tickets, s[i], s[j]) {
      assert Before(m.tickets, s[i], s[j]);
    }
  }

  lemma {:induction false} SortedRunIsPriorityRun(h: Handler, order: seq<nat>, m: Machine, s: seq<nat>, ids: set<nat>)
    requires Runnable(order, m) && Sorted(m.tickets, s)
    requires (forall x :: x in s ==> x in ids) && forall x :: x in Live(m, ids) ==> x in s
    ensures RunAll(h, order, m, s) == PriorityRun(h, order, m, ids)
    decreases s
  {
    hide RunOne;
    hide Before;
    hide Evolves;
    hide MachineOk;
    if s == [] {
      assert Live(m, ids) == {};
    } else {
      var x, rest := s[0], s[1..];
      assert s == [x] + rest;
      RunAllFront(h, order, m, x, rest);
      assert Sorted(m.tickets, rest);
      var m' := RunOne(h, order, m, x);
      if !IsLive(m, x) {
        RunOneStep(h, order, m, x);
        SortedRunIsPriorityRun(h, order, m, rest, ids);
      } else {
        assert IsLeast(m, Live(m, ids), x) by {
          forall y | y in Live(m, ids) && y != x ensures y in m.tickets && Before(m.tickets, x, y) {
            var k :| 0 <= k < |s| && s[k] == y;
          }
        }
        FirstStep(h, order, m, ids, x);
        RunOneShrinks(h, order, m, ids, x);
        RunOneEvolves(h, order, m, x);
        SortedStable(m, m', rest);
        forall y | y in Live(m', ids) ensures y in rest {
          assert y in Live(m, ids) - {x};
        }
        SortedRunIsPriorityRun(h, order, m', rest, ids);
      }
    }
  }

  lemma RunOneEvolves(h: Handler, order: seq<nat>, m: Machine, x: nat)
    requires Runnable(order, m)
    ensures Evolves(m, RunOne(h, order, m, x))
  {
    RunOneStep(h, order, m, x);
  }

  lemma FirstStep(h: Handler, order: seq<nat>, m: Machine, ids: set<nat>, x: nat)
    requires Runnable(order, m) && IsLeast(m, Live(m, ids), x)
    ensures Runnable(order, RunOne(h, order, m, x))
    ensures PriorityRun(h, order, m, ids) == PriorityRun(h, order, RunOne(h, order, m, x), ids)
  {
    hide RunOne;
    hide IsLeast;
    assert x in Live(m, ids) by { LeastIsMember(m, Live(m, ids), x); }
    RunOneShrinks(h, order, m, ids, x);
    LeastUnique(m, Live(m, ids), x, Least(m, Live(m, ids)));
  }

  lemma LeastIsMember(m: Machine, live: set<nat>, x: nat)
    requires IsLeast(m, live, x)
    ensures x in live
  {
  }

  // --------------------------------------------------------------- readiness

  lemma {:induction false} ReadyIncreasing(i: Inputs, tickets: Tickets, order: seq<nat>)
    requires Increasing(order)
    ensures Increasing(ReadyIds(i, tickets, order))
  {
    hide IsReady;
    if order != [] {
      var n := |order| - 1;
      ReadyIncreasing(i, tickets, order[..n]);
      var r := ReadyIds(i, tickets, order[..n]);
      forall k | 0 <= k < |r| ensures r[k] < order[n] {
        assert r[k] in order[..n];
      }
    }
  }

  /** Readiness depends on the older tickets only. */
  lemma {:induction false} ReadyMember(i: Inputs, tickets: Tickets, order: seq<nat>, p: nat)
    requires Increasing(order) && p < |order|
    ensures order[p] in ReadyIds(i, tickets, order) <==> IsReady(i, tickets, order[..p], order[p])
  {
    hide IsReady;
    var n := |order| - 1;
    if p < n {
      assert order[..n][..p] == order[..p];
      ReadyMember(i, tickets, order[..n], p);
    } else {
      assert order[n] !in ReadyIds(i, tickets, order[..n]) by {
        assert order[n] !in order[..n];
      }
    }
  }

  /** How many tickets of `order` one source's events release. */
  function Released(i: Inputs, tickets: Tickets, order: seq<nat>, source: Word16): nat {
    if order == [] then 0
    else
      var older, id := order[..|order| - 1], order[|order| - 1];
      Released(i, tickets, older, source) +
        if IsReady(i, tickets, older, id) && Competes(i, tickets, id, source) then 1 else 0
  }

  /** A source's count is used up exactly: min(count, waiting) tickets go. */
  lemma {:induction false} TriggerReleasesExactly(i: Inputs, tickets: Tickets, order: seq<nat>, source: Word16)
    ensures Released(i, tickets, order, source) == Min(Max(Count(i, source), 0), Competing(i, tickets, order, source))
  {
    if order != [] {
      var older, id := order[..|order| - 1], order[|order| - 1];
      TriggerReleasesExactly(i, tickets, older, source);
      hide Count;
      hide GateOpen;
      if Competes(i, tickets, id, source) {
        assert IsReady(i, tickets, older, id) <==> Competing(i, tickets, older, source) < Count(i, source);
      }
    }
  }

  lemma {:induction false} CompetingMonotone(i: Inputs, tickets: Tickets, order: seq<nat>, p: nat, q: nat,
                                             source: Word16)
    requires p <= q <= |order|
    ensures Competing(i, tickets, order[..p], source) <= Competing(i, tickets, order[..q], source)
    decreases q - p
  {
    hide Competes;
    if p < q {
      assert order[..q][..q - 1] == order[..q - 1];
      CompetingMonotone(i, tickets, order, p, q - 1, source);
    }
  }

  /** And it is the oldest that go: a younger competitor is never released
      before an older one. */
  lemma OldestReleasedFirst(i: Inputs, tickets: Tickets, order: seq<nat>, p: nat, q: nat, source: Word16)
    requires Increasing(order) && p < q < |order|
    requires Competes(i, tickets, order[p], source) && Competes(i, tickets, order[q], source)
    requires order[q] in ReadyIds(i, tickets, order)
    ensures order[p] in ReadyIds(i, tickets, order)
  {
    ReadyMember(i, tickets, order, p);
    ReadyMember(i, tickets, order, q);
    CompetingMonotone(i, tickets, order, p, q, source);
  }
}
