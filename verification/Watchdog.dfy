/** The per-stream request watchdog, and what its verdict means in terms of the
    arrivals it has seen. */
module Watchdog {
  import opened Bytes
  import opened Outcomes
  import opened Acf
  import opened Request
  import opened Lifecycle
  import DispatcherRuns

  datatype StreamConfig = StreamConfig(timeout: int, monotonic: bool, overflowWraps: bool)

  datatype StreamState = StreamState(lastArrival: int, haveSeq: bool, lastSeq: Word32, tripped: bool)

  /** Sequence numbers are 32-bit words, so adding one wraps. */
  function Next(seqNum: Word32): Word32 {
    (seqNum + 1) % 0x1_0000_0000
  }

  /** An arrival breaks the rule if it does not follow the previous one. */
  predicate Violates(cfg: StreamConfig, st: StreamState, seqNum: Word32) {
    var wrapped := cfg.overflowWraps && st.lastSeq == MAX_UINT32 && seqNum == 0;
    cfg.monotonic && st.haveSeq && seqNum != Next(st.lastSeq) && !wrapped
  }

  /** The overflow setting has no effect: the word arithmetic already takes zero
      for the successor of the largest number. */
  lemma OverflowSettingIsIrrelevant(cfg: StreamConfig, wraps: bool, st: StreamState, seqNum: Word32)
    ensures Violates(cfg.(overflowWraps := wraps), st, seqNum) == Violates(cfg, st, seqNum)
  {
  }

  /** The rule as its documentation words it: strictly increasing, except that
      zero may follow the largest number where wrapping is allowed. */
  predicate DocumentedViolation(cfg: StreamConfig, st: StreamState, seqNum: Word32) {
    && cfg.monotonic && st.haveSeq
    && !(seqNum > st.lastSeq || (cfg.overflowWraps && st.lastSeq == MAX_UINT32 && seqNum == 0))
  }

  /** The code follows that wording except on a skipped number, which it rejects,
      and on an overflow where wrapping is not allowed, which it accepts. */
  lemma RuleAgreesExactlyWhen(cfg: StreamConfig, st: StreamState, seqNum: Word32)
    requires cfg.monotonic && st.haveSeq
    ensures Violates(cfg, st, seqNum) == DocumentedViolation(cfg, st, seqNum) <==>
            seqNum <= st.lastSeq + 1 && !(st.lastSeq == MAX_UINT32 && seqNum == 0 && !cfg.overflowWraps)
  {
  }

  lemma OverflowAcceptedDespiteSetting()
    ensures var cfg := StreamConfig(50, true, false); var st := StreamState(0, true, MAX_UINT32, false);
            DocumentedViolation(cfg, st, 0) && !Violates(cfg, st, 0)
  {
  }

  function Observed(cfg: StreamConfig, st: Option<StreamState>, seqNum: Word32, now: int): StreamState {
    var cur := if st.Some? then st.value else StreamState(0, false, 0, false);
    StreamState(now, true, seqNum, cur.tripped || Violates(cfg, cur, seqNum))
  }

  predicate Verdict(cfg: StreamConfig, st: Option<StreamState>, now: int) {
    st.None? || st.value.tripped || now - st.value.lastArrival > cfg.timeout
  }

  datatype Event =
    | Configure(stream: StreamId, cfg: StreamConfig)
    | Observe(stream: StreamId, seqNum: Word32, now: int)
    | Reset(stream: StreamId, now: int)

  /** What a supervisor stores: its default and the two maps. */
  datatype Records = Records(def: StreamConfig, cfg: map<StreamId, StreamConfig>, state: map<StreamId, StreamState>)

  function ConfigIn(r: Records, stream: StreamId): StreamConfig {
    if stream in r.cfg then r.cfg[stream] else r.def
  }

  function StateIn(r: Records, stream: StreamId): Option<StreamState> {
    if stream in r.state then Some(r.state[stream]) else None
  }

  function Step(r: Records, e: Event): Records {
    match e
    case Configure(stream, cfg) => r.(cfg := r.cfg[stream := cfg])
    case Observe(stream, seqNum, now) =>
      r.(state := r.state[stream := Observed(ConfigIn(r, stream), StateIn(r, stream), seqNum, now)])
    case Reset(stream, now) => r.(state := r.state[stream := StreamState(now, false, 0, false)])
  }

  function Run(def: StreamConfig, evs: seq<Event>): Records {
    if evs == [] then Records(def, map[], map[]) else Step(Run(def, evs[..|evs| - 1]), evs[|evs| - 1])
  }

  class Supervisor {
    const defCfg: StreamConfig
    var cfg: map<StreamId, StreamConfig>
    var state: map<StreamId, StreamState>

    constructor (defCfg: StreamConfig)
      ensures View() == Run(defCfg, [])
    {
      this.defCfg := defCfg;
      cfg, state := map[], map[];
    }

    function View(): Records
      reads this
    {
      Records(defCfg, cfg, state)
    }

    function ConfigFor(stream: StreamId): StreamConfig
      reads this
    {
      if stream in cfg then cfg[stream] else defCfg
    }

    method Configure(stream: StreamId, c: StreamConfig)
      modifies this`cfg
      ensures View() == Step(old(View()), Event.Configure(stream, c))
    {
      cfg := cfg[stream := c];
    }

    /** Records an arrival and reports whether it broke the sequence rule. */
    method Observe(stream: StreamId, seqNum: Word32, now: int) returns (violation: bool)
      modifies this`state
      ensures View() == Step(old(View()), Event.Observe(stream, seqNum, now))
      ensures var st := old(StateIn(View(), stream));
              violation <==> st.Some? && Violates(old(ConfigIn(View(), stream)), st.value, seqNum)
    {
      var c := ConfigFor(stream);
      if stream !in state {
        state := state[stream := StreamState(0, false, 0, false)];
      }
      var st := state[stream];
      violation := false;
      if c.monotonic && st.haveSeq {
        var wrapped := c.overflowWraps && st.lastSeq == MAX_UINT32 && seqNum == 0;
        if seqNum != Next(st.lastSeq) && !wrapped {
          violation := true;
          st := st.(tripped := true);
        }
      }
      state := state[stream := st.(lastArrival := now, haveSeq := true, lastSeq := seqNum)];
    }

    method InSafeState(stream: StreamId, now: int) returns (safe: bool)
      ensures safe <==> Verdict(ConfigIn(View(), stream), StateIn(View(), stream), now)
    {
      if stream !in state {
        return true;
      }
      var st := state[stream];
      if st.tripped {
        return true;
      }
      return now - st.lastArrival > ConfigFor(stream).timeout;
    }

    method Reset(stream: StreamId, now: int)
      modifies this`state
      ensures View() == Step(old(View()), Event.Reset(stream, now))
    {
      state := state[stream := StreamState(now, false, 0, false)];
    }
  }

  // ------------------------------------------------------------- whole runs

  datatype Watch = Watch(cfg: StreamConfig, st: Option<StreamState>)

  /** One stream's configuration and state, folded over its own events alone. */
  function Watched(def: StreamConfig, evs: seq<Event>, stream: StreamId): Watch {
    if evs == [] then Watch(def, None)
    else
      var w := Watched(def, evs[..|evs| - 1], stream);
      var e := evs[|evs| - 1];
      if e.stream != stream then w
      else
        match e
        case Configure(_, cfg) => w.(cfg := cfg)
        case Observe(_, seqNum, now) => w.(st := Some(Observed(w.cfg, w.st, seqNum, now)))
        case Reset(_, now) => w.(st := Some(StreamState(now, false, 0, false)))
  }

  /** Streams do not interfere: what the maps hold for a stream after any run is
      that fold. */
  lemma {:induction false} RunIsLocal(def: StreamConfig, evs: seq<Event>, stream: StreamId)
    ensures Watch(ConfigIn(Run(def, evs), stream), StateIn(Run(def, evs), stream)) == Watched(def, evs, stream)
  {
    hide Observed;
    if evs != [] {
      RunIsLocal(def, evs[..|evs| - 1], stream);
    }
  }

  /** The supervisor's verdict after a run. */
  predicate InSafeState(def: StreamConfig, evs: seq<Event>, stream: StreamId, now: int) {
    var r := Run(def, evs);
    Verdict(ConfigIn(r, stream), StateIn(r, stream), now)
  }

  // ------------------------------------------- the verdict, from the history

  /** The configuration in force: the stream's latest, or the default. */
  function ConfigAt(def: StreamConfig, evs: seq<Event>, stream: StreamId): StreamConfig {
    if evs == [] then def
    else
      var e := evs[|evs| - 1];
      if e.stream == stream && e.Configure? then e.cfg else ConfigAt(def, evs[..|evs| - 1], stream)
  }

  /** When the stream was last heard from, or reset. */
  function LastHeard(evs: seq<Event>, stream: StreamId): Option<int> {
    if evs == [] then None
    else
      var e := evs[|evs| - 1];
      if e.stream == stream && !e.Configure? then Some(e.now) else LastHeard(evs[..|evs| - 1], stream)
  }

  /** The number of the latest arrival, unless there was a reset since. */
  function LastNumber(evs: seq<Event>, stream: StreamId): Option<Word32> {
    if evs == [] then None
    else
      var e := evs[|evs| - 1];
      if e.stream != stream || e.Configure? then LastNumber(evs[..|evs| - 1], stream)
      else if e.Reset? then None
      else Some(e.seqNum)
  }

  /** Arrival `j` did not follow its predecessor while the rule was on. */
  predicate Fault(def: StreamConfig, evs: seq<Event>, stream: StreamId, j: nat) {
    && j < |evs| && evs[j].Observe? && evs[j].stream == stream
    && ConfigAt(def, evs[..j], stream).monotonic
    && LastNumber(evs[..j], stream).Some? && evs[j].seqNum != Next(LastNumber(evs[..j], stream).value)
  }

  /** The stream was reset after event `j`. */
  predicate ResetSince(evs: seq<Event>, stream: StreamId, j: nat) {
    exists k :: j < k < |evs| && evs[k].Reset? && evs[k].stream == stream
  }

  /** Some fault has not been reset. */
  predicate Faulted(def: StreamConfig, evs: seq<Event>, stream: StreamId) {
    exists j :: 0 <= j < |evs| && Fault(def, evs, stream, j) && !ResetSince(evs, stream, j)
  }

  lemma FaultPrefix(def: StreamConfig, evs: seq<Event>, stream: StreamId, j: nat)
    requires evs != [] && j < |evs| - 1
    ensures Fault(def, evs[..|evs| - 1], stream, j) <==> Fault(def, evs, stream, j)
  {
    var rest := evs[..|evs| - 1];
    assert rest[..j] == evs[..j] && rest[j] == evs[j];
  }

  lemma FaultedStep(def: StreamConfig, evs: seq<Event>, stream: StreamId)
    requires evs != []
    ensures var rest, e := evs[..|evs| - 1], evs[|evs| - 1];
            Faulted(def, evs, stream) <==>
              if e.Reset? && e.stream == stream then false
              else Faulted(def, rest, stream) || Fault(def, evs, stream, |evs| - 1)
  {
    hide Fault;
    var rest, n := evs[..|evs| - 1], |evs| - 1;
    var e := evs[n];
    if Faulted(def, evs, stream) {
      var j :| 0 <= j < |evs| && Fault(def, evs, stream, j) && !ResetSince(evs, stream, j);
      if j < n {
        FaultPrefix(def, evs, stream, j);
        assert !(e.Reset? && e.stream == stream);
        assert forall k :: j < k < |rest| ==> rest[k] == evs[k];
        assert Faulted(def, rest, stream);
      } else {
        FaultIsArrival(def, evs, stream, n);
      }
    }
    if !(e.Reset? && e.stream == stream) {
      if Faulted(def, rest, stream) {
        var j :| 0 <= j < |rest| && Fault(def, rest, stream, j) && !ResetSince(rest, stream, j);
        FaultPrefix(def, evs, stream, j);
        assert forall k :: j < k < |rest| ==> rest[k] == evs[k];
        assert Faulted(def, evs, stream);
      }
      if Fault(def, evs, stream, n) {
        assert Faulted(def, evs, stream);
      }
    }
  }

  lemma FaultIsArrival(def: StreamConfig, evs: seq<Event>, stream: StreamId, j: nat)
    requires Fault(def, evs, stream, j)
    ensures j < |evs| && evs[j].Observe?
  {
  }

  lemma {:induction false} WatchedIsHistory(def: StreamConfig, evs: seq<Event>, stream: StreamId)
    ensures var w := Watched(def, evs, stream);
            && w.cfg == ConfigAt(def, evs, stream)
            && (w.st.Some? <==> LastHeard(evs, stream).Some?)
            && (w.st.Some? ==>
                  && w.st.value.lastArrival == LastHeard(evs, stream).value
                  && (w.st.value.haveSeq <==> LastNumber(evs, stream).Some?)
                  && (w.st.value.haveSeq ==> w.st.value.lastSeq == LastNumber(evs, stream).value)
                  && (w.st.value.tripped <==> Faulted(def, evs, stream)))
            && (w.st.None? ==> LastNumber(evs, stream).None? && !Faulted(def, evs, stream))
  {
    hide Faulted;
    if evs == [] {
      assert !Faulted(def, [], stream) by { NoFaultYet(def, stream); }
    } else {
      var rest, n := evs[..|evs| - 1], |evs| - 1;
      WatchedIsHistory(def, rest, stream);
      FaultedStep(def, evs, stream);
      assert evs[..n] == rest;
    }
  }

  /** What the supervisor's maps hold for a stream after any run is the history's:
      its latest configuration, when and with what number it was last heard from,
      and whether a fault is unreset. */
  lemma RecordIsHistory(def: StreamConfig, evs: seq<Event>, stream: StreamId)
    ensures var st := StateIn(Run(def, evs), stream);
            && ConfigIn(Run(def, evs), stream) == ConfigAt(def, evs, stream)
            && (st.Some? <==> LastHeard(evs, stream).Some?)
            && (st.Some? ==>
                  && st.value.lastArrival == LastHeard(evs, stream).value
                  && (st.value.haveSeq <==> LastNumber(evs, stream).Some?)
                  && (st.value.haveSeq ==> st.value.lastSeq == LastNumber(evs, stream).value)
                  && (st.value.tripped <==> Faulted(def, evs, stream)))
            && (st.None? ==> LastNumber(evs, stream).None? && !Faulted(def, evs, stream))
  {
    hide Faulted;
    hide Watched;
    hide Run;
    RunIsLocal(def, evs, stream);
    WatchedIsHistory(def, evs, stream);
  }

  lemma NoFaultYet(def: StreamConfig, stream: StreamId)
    ensures !Faulted(def, [], stream)
  {
  }

  /** A stream is judged to need its safe state exactly when it has never been
      heard from, or some sequence fault has not been reset, or the gap since it
      was last heard from exceeds its timeout. */
  lemma VerdictIsHistory(def: StreamConfig, evs: seq<Event>, stream: StreamId, now: int)
    ensures InSafeState(def, evs, stream, now) <==>
            || LastHeard(evs, stream).None?
            || Faulted(def, evs, stream)
            || now - LastHeard(evs, stream).value > ConfigAt(def, evs, stream).timeout
  {
    hide Faulted;
    hide Run;
    RecordIsHistory(def, evs, stream);
  }

  /** With the supervisor wired in as the dispatcher's check, a safety ticket
      acts only for a stream that is silent, faulted or late. */
  lemma SafetyActsOnlyOnWatchdogTrip(h: Handler, s: Core, i: Inputs, k: nat,
                                     def: StreamConfig, evs: seq<Event>, now: int)
    requires DispatcherRuns.Inv(s) && |s.log| <= k < |Pumped(h, s, i).log|
    requires forall st :: i.inSafeState(st) == InSafeState(def, evs, st, now)
    ensures var x := Pumped(h, s, i).log[k].ticket;
            x in s.tickets && (s.tickets[x].safety ==>
              var stream := s.tickets[x].requester;
              || LastHeard(evs, stream).None?
              || Faulted(def, evs, stream)
              || now - LastHeard(evs, stream).value > ConfigAt(def, evs, stream).timeout)
  {
    hide Pumped;
    hide InSafeState;
    hide Faulted;
    DispatcherRuns.EffectsPassTheGate(h, s, i, k);
    var x := Pumped(h, s, i).log[k].ticket;
    VerdictIsHistory(def, evs, s.tickets[x].requester, now);
  }
}
