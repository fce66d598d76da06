/** Whole runs of a Reassembler: arbitrary interleavings of arrivals, takes and
    sweeps, and what they can and cannot do to one key. */
module FragmentRuns {
  import opened Bytes
  import opened Outcomes
  import opened Acf
  import opened Fragment
  import E2E

  datatype Config = Config(timeout: int, max: nat)

  /** `Take` is Finish or FinishProtected: both drop a completed sequence. */
  datatype Event =
    | Arrive(stream: StreamId, m: Message, now: int)
    | Take(key: Key)
    | Sweep(now: int)

  function Step(cfg: Config, seqs: map<Key, Sequence>, e: Event): map<Key, Sequence> {
    match e
    case Arrive(stream, m, now) =>
      var key := KeyOf(stream, m);
      Put(seqs, key, AddStep(Lookup(seqs, key), cfg.max, m, now).0)
    case Take(key) => if key in seqs && seqs[key].ready then seqs - {key} else seqs
    case Sweep(now) => Swept(seqs, cfg.timeout, now)
  }

  function Run(cfg: Config, seqs: map<Key, Sequence>, evs: seq<Event>): map<Key, Sequence> {
    if evs == [] then seqs
    else Step(cfg, Run(cfg, seqs, evs[..|evs| - 1]), evs[|evs| - 1])
  }

  // -------------------------------------------------------- non-interference

  predicate Concerns(e: Event, key: Key) {
    match e
    case Arrive(stream, m, _) => KeyOf(stream, m) == key
    case Take(k) => k == key
    case Sweep(_) => true
  }

  /** The same step, seen from one key. */
  function KeyStep(cfg: Config, cur: Option<Sequence>, key: Key, e: Event): Option<Sequence> {
    if !Concerns(e, key) then cur
    else
      match e
      case Arrive(_, m, now) => AddStep(cur, cfg.max, m, now).0
      case Take(_) => if cur.Some? && cur.value.ready then None else cur
      case Sweep(now) => if cur.Some? && Stale(cur.value, cfg.timeout, now) then None else cur
  }

  function KeyRun(cfg: Config, cur: Option<Sequence>, key: Key, evs: seq<Event>): Option<Sequence> {
    if evs == [] then cur
    else KeyStep(cfg, KeyRun(cfg, cur, key, evs[..|evs| - 1]), key, evs[|evs| - 1])
  }

  function Project(evs: seq<Event>, key: Key): seq<Event> {
    if evs == [] then []
    else
      var e := evs[|evs| - 1];
      Project(evs[..|evs| - 1], key) + if Concerns(e, key) then [e] else []
  }

  lemma StepIsLocal(cfg: Config, seqs: map<Key, Sequence>, e: Event, key: Key)
    ensures Lookup(Step(cfg, seqs, e), key) == KeyStep(cfg, Lookup(seqs, key), key, e)
  {
    hide AddStep;
  }

  lemma {:induction false} RunIsLocal(cfg: Config, seqs: map<Key, Sequence>, evs: seq<Event>, key: Key)
    ensures Lookup(Run(cfg, seqs, evs), key) == KeyRun(cfg, Lookup(seqs, key), key, evs)
  {
    hide Step;
    hide KeyStep;
    hide Lookup;
    if evs != [] {
      RunIsLocal(cfg, seqs, evs[..|evs| - 1], key);
      StepIsLocal(cfg, Run(cfg, seqs, evs[..|evs| - 1]), evs[|evs| - 1], key);
    }
  }

  lemma {:induction false} KeyRunIgnoresOthers(cfg: Config, cur: Option<Sequence>, key: Key, evs: seq<Event>)
    ensures KeyRun(cfg, cur, key, evs) == KeyRun(cfg, cur, key, Project(evs, key))
  {
    hide AddStep;
    if evs != [] {
      var e := evs[|evs| - 1];
      var rest := Project(evs[..|evs| - 1], key);
      KeyRunIgnoresOthers(cfg, cur, key, evs[..|evs| - 1]);
      if Concerns(e, key) {
        assert (rest + [e])[..|rest|] == rest;
      } else {
        assert rest + [] == rest;
      }
    }
  }

  /** What becomes of one key depends only on that key's own events: whatever
      other traffic is interleaved, two runs with the same projection leave the
      key in the same state. */
  lemma OtherKeysDoNotInterfere(cfg: Config, seqs: map<Key, Sequence>, seqs': map<Key, Sequence>,
                                evs: seq<Event>, evs': seq<Event>, key: Key)
    requires Lookup(seqs, key) == Lookup(seqs', key) && Project(evs, key) == Project(evs', key)
    ensures Lookup(Run(cfg, seqs, evs), key) == Lookup(Run(cfg, seqs', evs'), key)
  {
    hide Lookup;
    RunIsLocal(cfg, seqs, evs, key);
    RunIsLocal(cfg, seqs', evs', key);
    KeyRunIgnoresOthers(cfg, Lookup(seqs, key), key, evs);
    KeyRunIgnoresOthers(cfg, Lookup(seqs', key), key, evs');
  }

  // ----------------------------------------------------------------- delivery

  /** `evs` delivers the first `i` segments of the train under `key`, in order,
      each followed by any number of immediate repeats. Other keys' events are
      arbitrary. Segments arrive at or after `start`, and no sweep comes later
      than one timeout after it. */
  ghost predicate Delivers(cfg: Config, evs: seq<Event>, key: Key, segs: seq<Message>, i: nat, start: int)
    requires i <= |segs|
    decreases |evs|
  {
    if evs == [] then i == 0
    else
      var rest, e := evs[..|evs| - 1], evs[|evs| - 1];
      match e
      case Sweep(now) => now - start <= cfg.timeout && Delivers(cfg, rest, key, segs, i, start)
      case Take(k) => k != key && Delivers(cfg, rest, key, segs, i, start)
      case Arrive(stream, m, now) =>
        if KeyOf(stream, m) != key then Delivers(cfg, rest, key, segs, i, start)
        else
          && i > 0 && m == segs[i - 1] && now >= start
          && (Delivers(cfg, rest, key, segs, i - 1, start) || Delivers(cfg, rest, key, segs, i, start))
  }

  /** The receiver holds exactly the first `i` segments. */
  ghost predicate Holds(cur: Option<Sequence>, msg: Message, segs: seq<Message>, i: nat, start: int)
    requires i <= |segs|
  {
    if i == 0 then cur.None?
    else
      && cur.Some?
      && var s := cur.value;
         && s.kind == msg.kind && s.timestamp == msg.timestamp && s.baseControl == msg.control
         && s.bodies == Bodies(segs)[..i]
         && s.ready == (i == |segs|)
         && (s.ready ==> s.finalReadSize == msg.readSize)
         && s.updated >= start
  }

  /** The next segment is accepted, and completes the message exactly when it is
      the last. */
  lemma NextSegmentAccepted(max: nat, cur: Option<Sequence>, msg: Message, segs: seq<Message>, i: nat,
                            now: int, start: int)
    requires IsTrain(segs, msg) && i < |segs| && i < max && now >= start
    requires Holds(cur, msg, segs, i, start)
    ensures var r := AddStep(cur, max, segs[i], now);
            Holds(r.0, msg, segs, i + 1, start) && r.1 == Accepted(i + 1 == |segs|)
  {
    hide WithMore;
    hide Concat;
    assert Bodies(segs)[..i + 1] == Bodies(segs)[..i] + [segs[i].body];
  }

  /** An immediate repeat of the latest segment changes nothing and is answered
      as the original was. */
  lemma RepeatTolerated(max: nat, cur: Option<Sequence>, msg: Message, segs: seq<Message>, i: nat, now: int, start: int)
    requires IsTrain(segs, msg) && 0 < i <= |segs|
    requires Holds(cur, msg, segs, i, start)
    ensures AddStep(cur, max, segs[i - 1], now) == (cur, Accepted(i == |segs|))
  {
    hide WithMore;
    hide Concat;
    assert cur.value.bodies[i - 1] == segs[i - 1].body;
  }

  lemma {:induction false} DeliveryHolds(cfg: Config, evs: seq<Event>, key: Key, msg: Message, segs: seq<Message>,
                                         i: nat, start: int)
    requires IsTrain(segs, msg) && i <= |segs| && i <= cfg.max
    requires Delivers(cfg, evs, key, segs, i, start)
    ensures Holds(KeyRun(cfg, None, key, evs), msg, segs, i, start)
    decreases |evs|
  {
    hide AddStep;
    hide Holds;
    hide IsTrain;
    if evs == [] {
      NothingHeld(msg, segs, start);
    } else {
      var rest, e := evs[..|evs| - 1], evs[|evs| - 1];
      if Concerns(e, key) && e.Arrive? {
        if Delivers(cfg, rest, key, segs, i - 1, start) {
          DeliveryHolds(cfg, rest, key, msg, segs, i - 1, start);
          NextSegmentAccepted(cfg.max, KeyRun(cfg, None, key, rest), msg, segs, i - 1, e.now, start);
        } else {
          DeliveryHolds(cfg, rest, key, msg, segs, i, start);
          RepeatTolerated(cfg.max, KeyRun(cfg, None, key, rest), msg, segs, i, e.now, start);
        }
      } else {
        DeliveryHolds(cfg, rest, key, msg, segs, i, start);
        if e.Sweep? {
          HeldIsFresh(cfg, KeyRun(cfg, None, key, rest), msg, segs, i, start, e.now);
        }
      }
    }
  }

  lemma NothingHeld(msg: Message, segs: seq<Message>, start: int)
    ensures Holds(None, msg, segs, 0, start)
  {
  }

  lemma HeldIsFresh(cfg: Config, cur: Option<Sequence>, msg: Message, segs: seq<Message>, i: nat, start: int, now: int)
    requires i <= |segs| && Holds(cur, msg, segs, i, start) && now - start <= cfg.timeout
    ensures cur.Some? ==> !Stale(cur.value, cfg.timeout, now)
  {
  }

  /** A message as reassembly gives it back: the sequence keeps no pad, evt, hs,
      cs or mtv. */
  function Stripped(msg: Message): Message {
    msg.(pad := 0, evt := 0, hs := false, cs := false, mtv := false)
  }

  lemma HeldIsMessage(cur: Option<Sequence>, key: Key, msg: Message, segs: seq<Message>, start: int)
    requires IsTrain(segs, msg) && Holds(cur, msg, segs, |segs|, start)
    requires key.bus == msg.busId && key.txn == msg.txn
    ensures cur.Some? && cur.value.ready && cur.value.bodies == Bodies(segs)
    ensures Reassembled(cur.value, key) == Stripped(msg)
  {
    assert Bodies(segs)[..|segs|] == Bodies(segs);
  }

  /** Splitting a message and delivering its segments, interleaved with anything
      else and with immediate repeats, completes exactly at the last segment and
      reassembles the message, up to the fields a sequence does not keep. */
  lemma SplitDelivery(cfg: Config, seqs: map<Key, Sequence>, evs: seq<Event>, stream: StreamId, msg: Message,
                      maxBody: int, i: nat, start: int, now: int)
    requires Splitting(msg, maxBody).Ok? && KeyOf(stream, msg) !in seqs
    requires i <= |Splitting(msg, maxBody).value| && i <= cfg.max
    requires Delivers(cfg, evs, KeyOf(stream, msg), Splitting(msg, maxBody).value, i, start)
    ensures var key := KeyOf(stream, msg); var segs := Splitting(msg, maxBody).value;
            var after := Run(cfg, seqs, evs);
            && (key in after <==> i > 0)
            && (i > 0 ==> (after[key].ready <==> i == |segs|))
            && (i == |segs| ==> Reassembled(after[key], key) == Stripped(msg) && after[key].bodies == Bodies(segs))
            && (i < |segs| && i < cfg.max && now >= start ==>
                  AddStep(Lookup(after, key), cfg.max, segs[i], now).1 == Accepted(i + 1 == |segs|))
            && (i > 0 ==>
                  AddStep(Lookup(after, key), cfg.max, segs[i - 1], now) == (Lookup(after, key), Accepted(i == |segs|)))
  {
    hide AddStep;
    hide Holds;
    hide IsTrain;
    hide Splitting;
    hide Delivers;
    hide Reassembled;
    var key, segs := KeyOf(stream, msg), Splitting(msg, maxBody).value;
    var cur := KeyRun(cfg, None, key, evs);
    SplitGivesTrain(msg, maxBody);
    DeliveryHolds(cfg, evs, key, msg, segs, i, start);
    RunIsLocal(cfg, seqs, evs, key);
    HeldShape(cur, msg, segs, i, start);
    if i == |segs| && i > 0 {
      HeldIsMessage(cur, key, msg, segs, start);
    }
    assert segs != [] by { TrainNonEmpty(segs, msg); }
    if i < |segs| && i < cfg.max && now >= start {
      NextSegmentAccepted(cfg.max, cur, msg, segs, i, now, start);
    }
    if i > 0 {
      RepeatTolerated(cfg.max, cur, msg, segs, i, now, start);
    }
  }

  lemma TrainNonEmpty(segs: seq<Message>, msg: Message)
    requires IsTrain(segs, msg)
    ensures segs != []
  {
  }

  lemma HeldShape(cur: Option<Sequence>, msg: Message, segs: seq<Message>, i: nat, start: int)
    requires i <= |segs| && Holds(cur, msg, segs, i, start)
    ensures cur.Some? <==> i > 0
    ensures i > 0 ==> (cur.value.ready <==> i == |segs|)
  {
  }

  /** The segment bound is exact: after as many segments as the receiver allows,
      the next one of a longer message drops the whole sequence. */
  lemma TooLongIsRejected(cfg: Config, evs: seq<Event>, key: Key, msg: Message, segs: seq<Message>,
                          start: int, now: int)
    requires IsTrain(segs, msg) && 1 <= cfg.max < |segs|
    requires Delivers(cfg, evs, key, segs, cfg.max, start)
    ensures AddStep(KeyRun(cfg, None, key, evs), cfg.max, segs[cfg.max], now) == (None, Rejected(TooManySegments))
  {
    hide Delivers;
    hide Concat;
    hide WithMore;
    DeliveryHolds(cfg, evs, key, msg, segs, cfg.max, start);
  }

  // --------------------------------------------------------------- provenance

  /** The positions in the run of the arrivals whose bodies a key now holds. */
  function Origins(cfg: Config, evs: seq<Event>, key: Key): seq<nat> {
    if evs == [] then []
    else
      var rest := evs[..|evs| - 1];
      var cur := KeyRun(cfg, None, key, rest);
      var next := KeyStep(cfg, cur, key, evs[|evs| - 1]);
      if next.None? then []
      else if cur.None? then [|rest|]
      else if |next.value.bodies| > |cur.value.bodies| then Origins(cfg, rest, key) + [|rest|]
      else Origins(cfg, rest, key)
  }

  /** Arrival `e` is segment `j` of sequence `s`, the last one if `last`. */
  predicate Supplies(e: Event, key: Key, s: Sequence, j: nat, last: bool) {
    && e.Arrive? && KeyOf(e.stream, e.m) == key
    && j < |s.bodies| && e.m.body == s.bodies[j] && HeaderMatches(s, e.m)
    && if s.ready && last then !MoreSegments(e.m.control) && e.m.readSize == s.finalReadSize
       else MoreSegments(e.m.control) && e.m.readSize == j
  }

  /** What `s` holds is exactly what the arrivals at `o` brought, in order. */
  ghost predicate Sound(cfg: Config, evs: seq<Event>, key: Key, s: Sequence, o: seq<nat>) {
    && |o| == |s.bodies|
    && |s.bodies| <= cfg.max
    && (forall i, j :: 0 <= i < j < |o| ==> o[i] < o[j])
    && (forall j :: 0 <= j < |o| ==> o[j] < |evs| && Supplies(evs[o[j]], key, s, j, j == |o| - 1))
  }

  lemma SoundLonger(cfg: Config, evs: seq<Event>, key: Key, s: Sequence, o: seq<nat>)
    requires evs != [] && Sound(cfg, evs[..|evs| - 1], key, s, o)
    ensures Sound(cfg, evs, key, s, o)
  {
    hide Supplies;
    forall j | 0 <= j < |o| ensures o[j] < |evs| && Supplies(evs[o[j]], key, s, j, j == |o| - 1) {
      assert evs[o[j]] == evs[..|evs| - 1][o[j]];
    }
  }

  /** How one arrival can extend a sequence. */
  lemma ArrivalEffect(cfg: Config, cur: Option<Sequence>, key: Key, e: Event)
    requires Concerns(e, key) && e.Arrive?
    ensures var next := KeyStep(cfg, cur, key, e);
            next.Some? ==>
              || next == cur
              || (&& cur.None? && next.value.bodies == [e.m.body] && Supplies(e, key, next.value, 0, true)
                  && next.value.updated == e.now)
              || (&& cur.Some? && next.value.updated == e.now && !cur.value.ready && |cur.value.bodies| < cfg.max
                  && next.value.bodies == cur.value.bodies + [e.m.body]
                  && Supplies(e, key, next.value, |cur.value.bodies|, true)
                  && next.value.kind == cur.value.kind && next.value.timestamp == cur.value.timestamp
                  && next.value.baseControl == cur.value.baseControl)
  {
    hide WithMore;
  }

  lemma SoundExtended(cfg: Config, evs: seq<Event>, key: Key, s: Sequence, o: seq<nat>, next: Sequence)
    requires evs != [] && Sound(cfg, evs[..|evs| - 1], key, s, o) && evs[|evs| - 1].Arrive?
    requires !s.ready && |s.bodies| < cfg.max && next.bodies == s.bodies + [evs[|evs| - 1].m.body]
    requires Supplies(evs[|evs| - 1], key, next, |s.bodies|, true)
    requires next.kind == s.kind && next.timestamp == s.timestamp && next.baseControl == s.baseControl
    ensures Sound(cfg, evs, key, next, o + [|evs| - 1])
  {
    hide WithMore;
    hide WithoutMore;
    var o' := o + [|evs| - 1];
    forall j | 0 <= j < |o'| ensures o'[j] < |evs| && Supplies(evs[o'[j]], key, next, j, j == |o'| - 1) {
      if j < |o| {
        assert evs[o[j]] == evs[..|evs| - 1][o[j]];
        assert Supplies(evs[o[j]], key, s, j, j == |o| - 1);
      }
    }
  }

  /** Under any run whatsoever, malformed arrivals and sweeps included, what a
      key holds is the ordered concatenation of real arrivals numbered 0, 1, ...,
      ended by one terminal segment if it is complete, all with the same kind,
      timestamp and base control, and never more of them than the bound. */
  lemma {:induction false} Provenance(cfg: Config, evs: seq<Event>, key: Key)
    requires cfg.max >= 1
    ensures var cur := KeyRun(cfg, None, key, evs);
            cur.Some? ==> Sound(cfg, evs, key, cur.value, Origins(cfg, evs, key))
  {
    hide AddStep;
    hide Sound;
    hide Supplies;
    if evs != [] {
      var rest, e := evs[..|evs| - 1], evs[|evs| - 1];
      var cur := KeyRun(cfg, None, key, rest);
      var next := KeyStep(cfg, cur, key, e);
      var o := Origins(cfg, rest, key);
      Provenance(cfg, rest, key);
      if next.Some? {
        if Concerns(e, key) && e.Arrive? {
          ArrivalEffect(cfg, cur, key, e);
        }
        if next == cur {
          SoundLonger(cfg, evs, key, cur.value, o);
        } else if cur.None? {
          SoundFirst(cfg, evs, key, next.value);
        } else {
          SoundExtended(cfg, evs, key, cur.value, o, next.value);
        }
      }
    }
  }

  lemma SoundFirst(cfg: Config, evs: seq<Event>, key: Key, s: Sequence)
    requires evs != [] && cfg.max >= 1 && |s.bodies| == 1 && Supplies(evs[|evs| - 1], key, s, 0, true)
    ensures Sound(cfg, evs, key, s, [|evs| - 1])
  {
    hide Supplies;
  }

  /** So a message handed out by Finish was sent: its body is the concatenation
      of the bodies of those arrivals. */
  lemma FinishedMessageProvenance(cfg: Config, evs: seq<Event>, key: Key)
    requires cfg.max >= 1 && key in Run(cfg, map[], evs) && Run(cfg, map[], evs)[key].ready
    ensures var s := Run(cfg, map[], evs)[key]; var o := Origins(cfg, evs, key);
            && Sound(cfg, evs, key, s, o) && |o| >= 1
            && Reassembled(s, key).body == Concat(seq(|o|, j requires 0 <= j < |o| =>
                 if o[j] < |evs| && evs[o[j]].Arrive? then evs[o[j]].m.body else []))
  {
    hide KeyStep;
    RunIsLocal(cfg, map[], evs, key);
    Provenance(cfg, evs, key);
    var s, o := Run(cfg, map[], evs)[key], Origins(cfg, evs, key);
    forall j | 0 <= j < |o| ensures o[j] < |evs| && evs[o[j]].Arrive? && evs[o[j]].m.body == s.bodies[j] {
      assert Supplies(evs[o[j]], key, s, j, j == |o| - 1);
    }
    assert s.bodies == seq(|o|, j requires 0 <= j < |o| =>
                 if o[j] < |evs| && evs[o[j]].Arrive? then evs[o[j]].m.body else []);
  }

  // ---------------------------------------------------------- coming to an end

  /** A sequence is dated by the arrival that last brought something new to it. */
  lemma {:induction false} DatedByLatestSegment(cfg: Config, evs: seq<Event>, key: Key)
    requires cfg.max >= 1
    ensures var cur := KeyRun(cfg, None, key, evs); var o := Origins(cfg, evs, key);
            cur.Some? ==> && |o| >= 1 && o[|o| - 1] < |evs| && evs[o[|o| - 1]].Arrive?
                          && cur.value.updated == evs[o[|o| - 1]].now
  {
    hide AddStep;
    hide Sound;
    hide Supplies;
    if evs != [] {
      var rest, e := evs[..|evs| - 1], evs[|evs| - 1];
      var cur := KeyRun(cfg, None, key, rest);
      var next := KeyStep(cfg, cur, key, e);
      DatedByLatestSegment(cfg, rest, key);
      if next.Some? {
        if Concerns(e, key) && e.Arrive? {
          ArrivalEffect(cfg, cur, key, e);
        }
        if next == cur {
          var o := Origins(cfg, rest, key);
          assert evs[o[|o| - 1]] == rest[o[|o| - 1]];
        }
      }
    }
  }

  /** After a sweep, what is still incomplete got something new no longer ago than
      the timeout: whatever was silent for longer is gone. */
  lemma SweepLeavesOnlyTheFresh(cfg: Config, evs: seq<Event>, key: Key, now: int)
    requires cfg.max >= 1
    ensures var cur := KeyRun(cfg, None, key, evs + [Sweep(now)]); var o := Origins(cfg, evs, key);
            cur.Some? && !cur.value.ready ==>
              && |o| >= 1 && o[|o| - 1] < |evs| && evs[o[|o| - 1]].Arrive?
              && now - evs[o[|o| - 1]].now <= cfg.timeout
  {
    hide AddStep;
    DatedByLatestSegment(cfg, evs, key);
    assert (evs + [Sweep(now)])[..|evs|] == evs;
  }

  /** Event `e` takes a message, or brings one with another head, under `key`. */
  predicate TakesOrMismatches(e: Event, key: Key, s: Sequence) {
    || (e.Take? && e.key == key)
    || (e.Arrive? && e.stream == key.stream && e.m.busId == key.bus && e.m.txn == key.txn && !SameHead(s, e.m))
  }

  /** A complete message waits for its taker: in any continuation, if its key does
      not hold it any more, it was taken or an arrival with another head under
      the same key dropped it. No sweep, no repeat and no stray segment does. */
  lemma {:induction false} CompleteStaysUntilTaken(cfg: Config, s: Sequence, key: Key, evs: seq<Event>)
    requires s.ready && !MoreSegments(s.baseControl) && KeyRun(cfg, Some(s), key, evs) != Some(s)
    ensures exists p :: 0 <= p < |evs| && TakesOrMismatches(evs[p], key, s)
    decreases |evs|
  {
    hide AddStep;
    var n := |evs| - 1;
    var rest := evs[..n];
    if KeyRun(cfg, Some(s), key, rest) == Some(s) {
      CompleteStep(cfg, s, key, evs[n]);
    } else {
      hide TakesOrMismatches;
      CompleteStaysUntilTaken(cfg, s, key, rest);
      var p :| 0 <= p < |rest| && TakesOrMismatches(rest[p], key, s);
      assert rest[p] == evs[p];
    }
  }

  lemma CompleteStep(cfg: Config, s: Sequence, key: Key, e: Event)
    requires s.ready && !MoreSegments(s.baseControl) && KeyStep(cfg, Some(s), key, e) != Some(s)
    ensures TakesOrMismatches(e, key, s)
  {
    hide AddStep;
    if e.Arrive? {
      RefusalsAreExact(Some(s), cfg.max, e.m, e.now);
      CompleteIsKept(s, cfg.max, e.m, e.now);
    }
  }

  lemma CompleteIsKept(s: Sequence, max: nat, m: Message, now: int)
    requires s.ready
    ensures AddStep(Some(s), max, m, now).0 == Some(s) || AddStep(Some(s), max, m, now).1 == Rejected(HeaderMismatch)
  {
  }

  /** What a key holds has its more-segments bit cleared. */
  lemma {:induction false} BaseControlIsPlain(cfg: Config, evs: seq<Event>, key: Key)
    ensures var cur := KeyRun(cfg, None, key, evs); cur.Some? ==> !MoreSegments(cur.value.baseControl)
  {
    if evs != [] {
      BaseControlIsPlain(cfg, evs[..|evs| - 1], key);
    }
  }

  // ------------------------------------------------- fragments and safe points

  /** FinishProtected refines Finish followed by Verify: it succeeds exactly when
      that pair does and the stripped padding and checksum lie inside the last
      segment, and then it returns the same message. */
  lemma FinishProtectedRefinesFinish(crc: E2E.Checksum, stream: StreamId, s: Sequence, key: Key)
    ensures var f := FinishedProtected(crc, stream, s, key);
            var v := E2E.Verify(crc, stream, Reassembled(s, key));
            var last := |s.bodies[|s.bodies| - 1]|;
            && (f.Ok? <==> v.Ok? && last >= E2E.LEN && |Concat(s.bodies)| - |v.value.body| <= last)
            && (f.Ok? ==> v.Ok? && f.value == v.value)
            && (last >= E2E.LEN + 3 ==> (f.Ok? <==> v.Ok?))
  {
    E2E.FragmentedRefinesWhole(crc, stream, MessageFor(s, key), s.bodies);
    hide E2E.Verify;
    hide E2E.VerifyFragmented;
    hide Concat;
    assert MessageFor(s, key).(body := Concat(s.bodies)) == Reassembled(s, key);
  }

  lemma StrippedCoverage(stream: StreamId, m: Message)
    ensures E2E.SameCoverage(stream, m, stream, Stripped(m))
  {
  }

  /** What FinishProtected makes of a protected message held in full. */
  lemma ProtectedTrain(crc: E2E.Checksum, stream: StreamId, m: Message, segs: seq<Message>, s: Sequence, key: Key)
    requires IsTrain(segs, E2E.Protect(crc, stream, m)) && key == KeyOf(stream, m)
    requires s.bodies == Bodies(segs) && Reassembled(s, key) == Stripped(E2E.Protect(crc, stream, m))
    ensures segs != []
    ensures FinishedProtected(crc, stream, s, key) == Ok(Stripped(m)) <==>
            !E2E.Collides(crc, stream, m) && |segs[|segs| - 1].body| >= E2E.LEN + E2E.PadLenFor(|m.body|)
  {
    hide IsTrain;
    hide Reassembled;
    hide FinishedProtected;
    hide E2E.Verify;
    hide E2E.PadLenFor;
    hide E2E.Collides;
    hide E2E.SameCoverage;
    hide Concat;
    var p := E2E.Protect(crc, stream, m);
    E2E.ProtectKeepsHeader(crc, stream, m);
    E2E.ProtectedParts(crc, stream, m);
    hide E2E.Protect;
    TrainBody(segs, p);
    StrippedCoverage(stream, p);
    E2E.UncoveredFieldsDoNotMatter(crc, stream, p, Stripped(p));
    E2E.VerifyAcceptsProtected(crc, stream, m);
    var v := E2E.Verify(crc, stream, Stripped(p));
    assert v.Ok? && v.value == Stripped(p).(body := E2E.Verify(crc, stream, p).value.body);
    assert v == Ok(Stripped(m)) <==> E2E.Verify(crc, stream, p) == Ok(m);
    FinishProtectedRefinesFinish(crc, stream, s, key);
  }

  /** Octets of a protected message: payload, padding, checksum. */
  function ProtectedLength(payload: nat): nat {
    payload + E2E.PadLenFor(payload) + E2E.LEN
  }

  /** Cutting a protected message at `maxBody` leaves padding and checksum whole
      in the last segment. */
  predicate SafePointWhole(payload: nat, maxBody: int)
    requires maxBody > 0
  {
    LastLength(ProtectedLength(payload), maxBody) >= E2E.LEN + E2E.PadLenFor(payload)
  }

  /** Protect, split at `maxBody`, deliver with any interleaving and immediate
      repeats, FinishProtected: the payload comes back if and only if no shorter
      padding collides and the cut leaves the safe point whole. */
  lemma ProtectedDelivery(cfg: Config, crc: E2E.Checksum, seqs: map<Key, Sequence>, evs: seq<Event>,
                          stream: StreamId, m: Message, maxBody: int, start: int)
    requires Splitting(E2E.Protect(crc, stream, m), maxBody).Ok? && KeyOf(stream, m) !in seqs
    requires var segs := Splitting(E2E.Protect(crc, stream, m), maxBody).value;
             |segs| <= cfg.max && Delivers(cfg, evs, KeyOf(stream, m), segs, |segs|, start)
    ensures var key := KeyOf(stream, m); var after := Run(cfg, seqs, evs);
            && key in after && after[key].ready
            && (FinishedProtected(crc, stream, after[key], key) == Ok(Stripped(m)) <==>
                !E2E.Collides(crc, stream, m) && SafePointWhole(|m.body|, maxBody))
  {
    hide Run;
    hide Delivers;
    hide Reassembled;
    hide FinishedProtected;
    hide E2E.Collides;
    hide E2E.PadLenFor;
    hide IsTrain;
    hide Splitting;
    hide SafePointWhole;
    ProtectedSegments(crc, stream, m, maxBody);
    E2E.ProtectKeepsHeader(crc, stream, m);
    hide E2E.Protect;
    var p, key := E2E.Protect(crc, stream, m), KeyOf(stream, m);
    var segs := Splitting(p, maxBody).value;
    SplitDelivery(cfg, seqs, evs, stream, p, maxBody, |segs|, start, start);
    ProtectedTrain(crc, stream, m, segs, Run(cfg, seqs, evs)[key], key);
  }

  lemma ProtectedSegments(crc: E2E.Checksum, stream: StreamId, m: Message, maxBody: int)
    requires Splitting(E2E.Protect(crc, stream, m), maxBody).Ok?
    ensures maxBody > 0
    ensures var p := E2E.Protect(crc, stream, m); var segs := Splitting(p, maxBody).value;
            && segs != [] && IsTrain(segs, p)
            && (|segs[|segs| - 1].body| >= E2E.LEN + E2E.PadLenFor(|m.body|) <==> SafePointWhole(|m.body|, maxBody))
  {
    hide E2E.PadLenFor;
    hide IsTrain;
    hide LastLength;
    E2E.ProtectedParts(crc, stream, m);
    hide E2E.Protect;
    var p := E2E.Protect(crc, stream, m);
    assert maxBody > 0;
    hide Splitting;
    SplitGivesTrain(p, maxBody);
    LastSegmentLength(p, maxBody);
    assert |p.body| == ProtectedLength(|m.body|);
    hide ProtectedLength;
  }

  lemma TrainBody(segs: seq<Message>, msg: Message)
    requires IsTrain(segs, msg)
    ensures segs != [] && Concat(Bodies(segs)) == msg.body
  {
  }

  /** A sender that splits without looking can lose the message: one payload
      octet protected is eight octets, and cut at three the last segment holds
      only half of the checksum. */
  lemma StraddlingSafePointIsRejected(crc: E2E.Checksum, stream: StreamId, m: Message, key: Key, s: Sequence)
    requires |m.body| == 1
    requires var b := E2E.Protect(crc, stream, m).body; |b| == 8 && s.bodies == [b[..3], b[3..6], b[6..]]
    ensures FinishedProtected(crc, stream, s, key) == Err(SafePoint(E2E.ShortSafePoint))
  {
    assert |s.bodies[2]| == 2;
  }
}
