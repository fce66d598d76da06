/** Multi-segment messages: the sender's Split, and the keyed Reassembler that
    accepts segments strictly in order. */
module Fragment {
  import opened Bytes
  import opened Outcomes
  import opened Acf
  import E2E

  // ---------------------------------------------------------------- sender

  const MAX_SEGMENT_INDEX := 0xFFFF

  datatype SplitError = InvalidMaxSegmentBody | AlreadyFragmented | TooManyToSplit

  /** Where segment `i` starts. */
  function Offset(i: nat, maxBody: nat): nat {
    i * maxBody
  }

  lemma OffsetNext(i: nat, maxBody: nat)
    ensures Offset(i + 1, maxBody) == Offset(i, maxBody) + maxBody
  {
  }

  lemma OffsetMonotone(i: nat, j: nat, maxBody: nat)
    requires i <= j
    ensures Offset(i, maxBody) <= Offset(j, maxBody)
  {
  }

  /** How many segments a body of `len` octets needs. */
  function SegmentCount(len: nat, maxBody: nat): (n: nat)
    requires maxBody > 0
    ensures n >= 1
    ensures Offset(n - 1, maxBody) <= len <= Offset(n, maxBody)
  {
    if len <= maxBody then 1 else 1 + SegmentCount(len - maxBody, maxBody)
  }

  function CeilDiv(len: nat, maxBody: nat): nat
    requires maxBody > 0
  {
    (len + maxBody - 1) / maxBody
  }

  /** The closed form the source computes. */
  lemma SegmentCountIsCeiling(len: nat, maxBody: nat)
    requires maxBody > 0 && len > maxBody
    ensures SegmentCount(len, maxBody) == CeilDiv(len, maxBody)
  {
    hide SegmentCount;
    LastSegmentNonEmpty(len, maxBody);
    DivisionUnique(len + maxBody - 1, maxBody, SegmentCount(len, maxBody));
  }

  lemma {:induction false} LastSegmentNonEmpty(len: nat, maxBody: nat)
    requires maxBody > 0 && len > 0
    ensures Offset(SegmentCount(len, maxBody) - 1, maxBody) < len
  {
    hide Offset;
    if len <= maxBody {
      OffsetZero(maxBody);
    } else {
      LastSegmentNonEmpty(len - maxBody, maxBody);
      OffsetNext(SegmentCount(len - maxBody, maxBody) - 1, maxBody);
    }
  }

  lemma MulMonotone(a: nat, b: nat, d: nat)
    requires a <= b
    ensures a * d <= b * d
  {
  }

  lemma DivisionUnique(x: nat, d: nat, q: nat)
    requires d > 0 && q * d <= x < q * d + d
    ensures x / d == q
  {
    var q' := x / d;
    if q' < q {
      MulMonotone(q' + 1, q, d);
    } else if q' > q {
      MulMonotone(q + 1, q', d);
    }
  }

  function SegmentBody(body: seq<Byte>, maxBody: nat, i: nat): (b: seq<Byte>)
    requires Offset(i, maxBody) <= |body|
    ensures |b| <= maxBody
  {
    body[Offset(i, maxBody)..Min(Offset(i, maxBody) + maxBody, |body|)]
  }

  lemma SegmentStart(len: nat, maxBody: nat, i: nat)
    requires maxBody > 0 && i < SegmentCount(len, maxBody)
    ensures Offset(i, maxBody) <= len
    ensures Offset(i + 1, maxBody) == Offset(i, maxBody) + maxBody
    ensures i < SegmentCount(len, maxBody) - 1 ==> Offset(i + 1, maxBody) <= len
  {
    hide Offset;
    var n := SegmentCount(len, maxBody);
    OffsetMonotone(i, n - 1, maxBody);
    OffsetNext(i, maxBody);
    if i < n - 1 {
      OffsetMonotone(i + 1, n - 1, maxBody);
    }
  }

  /** Segment `i` of a message that needs `n` of them. */
  function SegmentOf(msg: Message, maxBody: nat, i: nat): Message
    requires maxBody > 0 && i < SegmentCount(|msg.body|, maxBody)
  {
    SegmentStart(|msg.body|, maxBody, i);
    var seg := msg.(pad := 0, body := SegmentBody(msg.body, maxBody, i));
    if i < SegmentCount(|msg.body|, maxBody) - 1 then seg.(control := WithMore(msg.control), readSize := i % 0x1_0000)
    else seg.(control := WithoutMore(msg.control))
  }

  function Splitting(msg: Message, maxBody: int): Result<seq<Message>, SplitError> {
    if maxBody <= 0 then Err(InvalidMaxSegmentBody)
    else if MoreSegments(msg.control) then Err(AlreadyFragmented)
    else if |msg.body| <= maxBody then Ok([msg])
    else if SegmentCount(|msg.body|, maxBody) - 1 > MAX_SEGMENT_INDEX then Err(TooManyToSplit)
    else
      var n := SegmentCount(|msg.body|, maxBody);
      Ok(seq(n, i requires 0 <= i < n => SegmentOf(msg, maxBody, i)))
  }

  /** When a message can be split, and what stops it otherwise. */
  lemma SplitsExactlyWhen(msg: Message, maxBody: int)
    ensures Splitting(msg, maxBody) == Err(InvalidMaxSegmentBody) <==> maxBody <= 0
    ensures Splitting(msg, maxBody) == Err(AlreadyFragmented) <==> maxBody > 0 && MoreSegments(msg.control)
    ensures Splitting(msg, maxBody) == Err(TooManyToSplit) <==>
            && maxBody > 0 && !MoreSegments(msg.control) && |msg.body| > maxBody
            && (|msg.body| + maxBody - 1) / maxBody > 0x1_0000
  {
    hide SegmentOf;
    hide SegmentCount;
    if maxBody > 0 && |msg.body| > maxBody {
      SegmentCountIsCeiling(|msg.body|, maxBody);
    }
  }

  lemma SegmentShape(msg: Message, maxBody: nat, i: nat)
    requires maxBody > 0 && i < SegmentCount(|msg.body|, maxBody)
    ensures Offset(i, maxBody) <= |msg.body|
    ensures var b := msg.body[Offset(i, maxBody)..Min(Offset(i, maxBody) + maxBody, |msg.body|)];
            SegmentOf(msg, maxBody, i) ==
            if i < SegmentCount(|msg.body|, maxBody) - 1
            then msg.(pad := 0, body := b, control := WithMore(msg.control), readSize := i % 0x1_0000)
            else msg.(pad := 0, body := b, control := WithoutMore(msg.control))
  {
    hide Offset;
    hide SegmentCount;
    hide WithMore;
    hide WithoutMore;
    SegmentStart(|msg.body|, maxBody, i);
  }

  method Split(msg: Message, maxBody: int) returns (r: Result<seq<Message>, SplitError>)
    ensures r == Splitting(msg, maxBody)
  {
    hide CeilDiv;
    hide SegmentCount;
    hide SegmentOf;
    hide Offset;
    hide WithMore;
    hide WithoutMore;
    if maxBody <= 0 {
      return Err(InvalidMaxSegmentBody);
    }
    if MoreSegments(msg.control) {
      return Err(AlreadyFragmented);
    }
    if |msg.body| <= maxBody {
      return Ok([msg]);
    }
    var n := CeilDiv(|msg.body|, maxBody);
    SegmentCountIsCeiling(|msg.body|, maxBody);
    if n - 1 > MAX_SEGMENT_INDEX {
      return Err(TooManyToSplit);
    }
    var segs: seq<Message> := [];
    for i := 0 to n
      invariant |segs| == i
      invariant forall j :: 0 <= j < i ==> segs[j] == SegmentOf(msg, maxBody, j)
    {
      SegmentStart(|msg.body|, maxBody, i);
      SegmentShape(msg, maxBody, i);
      var start := Offset(i, maxBody);
      var end := start + maxBody;
      if end > |msg.body| {
        end := |msg.body|;
      }
      var seg := msg.(pad := 0, body := msg.body[start..end]);
      if i < n - 1 {
        seg := seg.(control := WithMore(msg.control), readSize := i % 0x1_0000);
      } else {
        seg := seg.(control := WithoutMore(msg.control), readSize := msg.readSize);
      }
      segs := segs + [seg];
    }
    assert segs == Splitting(msg, maxBody).value;
    r := Ok(segs);
  }

  function Bodies(segs: seq<Message>): (b: seq<seq<Byte>>)
    ensures |b| == |segs| && forall i :: 0 <= i < |b| ==> b[i] == segs[i].body
  {
    seq(|segs|, i requires 0 <= i < |segs| => segs[i].body)
  }

  /** The parts of a message are a well-formed segment train: each body within
      the bound, numbered 0.. with the continuation bit set except on the last,
      which restores the message's own read size. */
  ghost predicate IsTrain(segs: seq<Message>, msg: Message) {
    && segs != []
    && (forall i :: 0 <= i < |segs| ==>
          && segs[i].kind == msg.kind && segs[i].busId == msg.busId && segs[i].txn == msg.txn
          && segs[i].timestamp == msg.timestamp
          && WithoutMore(segs[i].control) == msg.control
          && (MoreSegments(segs[i].control) <==> i < |segs| - 1)
          && (i < |segs| - 1 ==> segs[i].readSize == i))
    && segs[|segs| - 1].readSize == msg.readSize
    && Concat(Bodies(segs)) == msg.body
  }

  lemma OffsetZero(maxBody: nat)
    ensures Offset(0, maxBody) == 0
  {
  }

  lemma EmptyConcat(parts: seq<seq<Byte>>)
    requires parts == []
    ensures Concat(parts) == []
  {
  }

  lemma TakeThenSlice(s: seq<Byte>, a: nat, b: nat)
    requires a <= b <= |s|
    ensures s[..a] + s[a..b] == s[..b]
  {
  }

  lemma {:induction false} ConcatOfSegments(msg: Message, maxBody: nat, segs: seq<Message>, k: nat)
    requires maxBody > 0 && |segs| == SegmentCount(|msg.body|, maxBody) && k <= |segs|
    requires forall i :: 0 <= i < |segs| ==> segs[i] == SegmentOf(msg, maxBody, i)
    ensures Concat(Bodies(segs)[..k]) == msg.body[..Min(Offset(k, maxBody), |msg.body|)]
  {
    hide Offset;
    hide SegmentCount;
    hide SegmentOf;
    hide Concat;
    hide WithMore;
    hide WithoutMore;
    var bodies := Bodies(segs);
    if k == 0 {
      OffsetZero(maxBody);
      EmptyConcat(bodies[..0]);
    } else {
      ConcatOfSegments(msg, maxBody, segs, k - 1);
      SegmentShape(msg, maxBody, k - 1);
      OffsetNext(k - 1, maxBody);
      var off := Offset(k - 1, maxBody);
      var end := Min(off + maxBody, |msg.body|);
      assert bodies[..k][..k - 1] == bodies[..k - 1];
      E2E.ConcatLast(bodies[..k]);
      assert bodies[k - 1] == msg.body[off..end];
      TakeThenSlice(msg.body, off, end);
    }
  }

  lemma OneSegment(len: nat, maxBody: nat)
    requires 0 < maxBody && len <= maxBody
    ensures SegmentCount(len, maxBody) == 1
  {
  }

  lemma SingleConcat(parts: seq<seq<Byte>>)
    requires |parts| == 1
    ensures Concat(parts) == parts[0]
  {
    assert parts[1..] == [];
  }

  lemma SplitGivesTrain(msg: Message, maxBody: int)
    requires Splitting(msg, maxBody).Ok?
    ensures IsTrain(Splitting(msg, maxBody).value, msg)
    ensures forall s :: s in Splitting(msg, maxBody).value ==> |s.body| <= maxBody
    ensures |Splitting(msg, maxBody).value| == SegmentCount(|msg.body|, maxBody)
  {
    hide Offset;
    hide SegmentBody;
    hide SegmentCount;
    hide SegmentOf;
    hide Concat;
    hide WithMore;
    hide WithoutMore;
    var segs := Splitting(msg, maxBody).value;
    if |msg.body| <= maxBody {
      OneSegment(|msg.body|, maxBody);
      SingleConcat(Bodies(segs));
    } else {
      forall i | 0 <= i < |segs|
        ensures segs[i] == SegmentOf(msg, maxBody, i) && |segs[i].body| <= maxBody
        ensures segs[i].kind == msg.kind && segs[i].busId == msg.busId
        ensures segs[i].txn == msg.txn && segs[i].timestamp == msg.timestamp
        ensures segs[i].readSize == if i < |segs| - 1 then i else msg.readSize
        ensures WithoutMore(segs[i].control) == msg.control && (MoreSegments(segs[i].control) <==> i < |segs| - 1)
      {
        SegmentShape(msg, maxBody, i);
      }
      ConcatOfSegments(msg, maxBody, segs, |segs|);
      assert Offset(SegmentCount(|msg.body|, maxBody), maxBody) >= |msg.body|;
      assert msg.body[..|msg.body|] == msg.body;
      assert Bodies(segs)[..|segs|] == Bodies(segs);
    }
  }

  /** What is left of `len` octets for the last segment. */
  function LastLength(len: nat, maxBody: nat): int
    requires maxBody > 0
  {
    (len - 1) % maxBody + 1
  }

  lemma LastSegmentLength(msg: Message, maxBody: int)
    requires Splitting(msg, maxBody).Ok? && msg.body != []
    ensures var segs := Splitting(msg, maxBody).value;
            segs != [] && |segs[|segs| - 1].body| == LastLength(|msg.body|, maxBody)
  {
    hide SegmentCount;
    hide SegmentOf;
    hide Offset;
    hide LastLength;
    var len, n := |msg.body|, SegmentCount(|msg.body|, maxBody);
    if len > maxBody {
      SegmentShape(msg, maxBody, n - 1);
      LastSegmentNonEmpty(len, maxBody);
      OffsetNext(n - 1, maxBody);
      RestAfter(len, maxBody, n - 1);
    } else {
      OffsetZero(maxBody);
      RestAfter(len, maxBody, 0);
    }
  }

  lemma RestAfter(len: nat, maxBody: nat, i: nat)
    requires maxBody > 0 && Offset(i, maxBody) < len <= Offset(i, maxBody) + maxBody
    ensures len - Offset(i, maxBody) == LastLength(len, maxBody)
  {
    DivisionUnique(len - 1, maxBody, i);
  }

  // -------------------------------------------------------------- receiver

  const DEFAULT_TIMEOUT := 5_000_000_000
  const DEFAULT_MAX_SEGMENTS := 4096

  datatype Key = Key(stream: StreamId, bus: Word16, txn: Word16)

  function KeyOf(stream: StreamId, m: Message): Key {
    Key(stream, m.busId, m.txn)
  }

  datatype Buffer = Buffer(
    kind: Byte,
    timestamp: Word64,
    baseControl: Byte,
    finalReadSize: Word16,
    bodies: seq<seq<Byte>>,
    ready: bool,
    updated: int)

  /** An in-progress or completed reassembly; it always holds a segment. */
  type Sequence = s: Buffer | s.bodies != [] witness Buffer(1, 0, 0, 0, [[]], false, 0)

  datatype AddError = OutOfOrderSegment | DuplicateSegment | HeaderMismatch | SequenceComplete | TooManySegments

  datatype AddResult = Accepted(complete: bool) | Rejected(error: AddError)

  datatype FinishError = UnknownSequence | Incomplete | SafePoint(error: E2E.Error)

  predicate HeaderMatches(s: Sequence, m: Message) {
    m.kind == s.kind && m.timestamp == s.timestamp && WithoutMore(m.control) == s.baseControl
  }

  function MessageFor(s: Sequence, key: Key): Message {
    Message(s.kind, 0, key.bus, key.txn, 0, false, false, false, s.baseControl, s.finalReadSize, s.timestamp, [])
  }

  /** What one inbound message does to the sequence under its own key. */
  function AddStep(cur: Option<Sequence>, max: nat, m: Message, now: int): (Option<Sequence>, AddResult) {
    var isSeg := MoreSegments(m.control);
    if cur.None? then
      if !isSeg then
        (Some(Buffer(m.kind, m.timestamp, m.control, m.readSize, [m.body], true, now)), Accepted(true))
      else if m.readSize != 0 then (None, Rejected(OutOfOrderSegment))
      else (Some(Buffer(m.kind, m.timestamp, WithoutMore(m.control), 0, [m.body], false, now)), Accepted(false))
    else
      var s := cur.value;
      var next := |s.bodies|;
      if !HeaderMatches(s, m) then (None, Rejected(HeaderMismatch))
      else if s.ready then
        if !isSeg && s.bodies[next - 1] == m.body && m.readSize == s.finalReadSize then (cur, Accepted(true))
        else (cur, Rejected(SequenceComplete))
      else if isSeg && m.readSize == next - 1 then
        if s.bodies[next - 1] == m.body then (cur, Accepted(false)) else (None, Rejected(DuplicateSegment))
      else if isSeg && m.readSize != next then (None, Rejected(OutOfOrderSegment))
      else if next + 1 > max then (None, Rejected(TooManySegments))
      else if isSeg then (Some(s.(bodies := s.bodies + [m.body], updated := now)), Accepted(false))
      else
        (Some(s.(bodies := s.bodies + [m.body], updated := now, finalReadSize := m.readSize, ready := true)),
         Accepted(true))
  }

  /** Messages belong together exactly when stream, bus and transaction agree. */
  lemma KeysAreExact(stream: StreamId, m: Message, stream': StreamId, m': Message)
    ensures KeyOf(stream, m) == KeyOf(stream', m') <==>
            stream == stream' && m.busId == m'.busId && m.txn == m'.txn
  {
  }

  /** Kind, timestamp and control, the more-segments bit aside, are the sequence's. */
  predicate SameHead(s: Sequence, m: Message) {
    && m.kind == s.kind && m.timestamp == s.timestamp
    && (m.control == s.baseControl || (MoreSegments(m.control) && m.control - 8 == s.baseControl))
  }

  /** Which refusal it is: another head; something new after completion; the latest
      number with another body; any other number but the next; one too many. */
  lemma RefusalsAreExact(cur: Option<Sequence>, max: nat, m: Message, now: int)
    requires cur.Some? ==> !MoreSegments(cur.value.baseControl)
    ensures var r := AddStep(cur, max, m, now).1; var seg := MoreSegments(m.control);
            if cur.None? then r == Rejected(OutOfOrderSegment) <==> seg && m.readSize != 0
            else
              var s := cur.value; var n := |s.bodies|;
              && (r == Rejected(HeaderMismatch) <==> !SameHead(s, m))
              && (r == Rejected(SequenceComplete) <==>
                    SameHead(s, m) && s.ready && (seg || m.body != s.bodies[n - 1] || m.readSize != s.finalReadSize))
              && (r == Rejected(DuplicateSegment) <==>
                    SameHead(s, m) && !s.ready && seg && m.readSize == n - 1 && m.body != s.bodies[n - 1])
              && (r == Rejected(OutOfOrderSegment) <==>
                    SameHead(s, m) && !s.ready && seg && m.readSize != n - 1 && m.readSize != n)
              && (r == Rejected(TooManySegments) <==>
                    SameHead(s, m) && !s.ready && (seg ==> m.readSize == n) && n >= max)
  {
  }

  /** A refused message abandons the sequence under its key, except in one case:
      a complete sequence with a matching header stays. */
  lemma RejectionKeepsExactlyWhen(cur: Option<Sequence>, max: nat, m: Message, now: int)
    requires AddStep(cur, max, m, now).1.Rejected?
    ensures var next := AddStep(cur, max, m, now).0;
            && (next.Some? <==> cur.Some? && cur.value.ready && HeaderMatches(cur.value, m))
            && (next.Some? ==> next == cur && AddStep(cur, max, m, now).1.error == SequenceComplete)
  {
    hide WithoutMore;
  }

  /** For instance: a second, different message under the same key is refused, and
      the first can still be taken. */
  lemma SecondMessageIsRefused(max: nat, m: Message, other: Message, now: int)
    requires !MoreSegments(m.control) && other == m.(body := m.body + [0])
    ensures var first := AddStep(None, max, m, now);
            && first.1 == Accepted(true)
            && AddStep(first.0, max, other, now) == (first.0, Rejected(SequenceComplete))
  {
  }

  function Lookup(seqs: map<Key, Sequence>, key: Key): Option<Sequence> {
    if key in seqs then Some(seqs[key]) else None
  }

  function Put(seqs: map<Key, Sequence>, key: Key, s: Option<Sequence>): map<Key, Sequence> {
    if s.Some? then seqs[key := s.value] else seqs - {key}
  }

  predicate Stale(s: Sequence, timeout: int, now: int) {
    !s.ready && now - s.updated > timeout
  }

  lemma StaleMeans(timeout: int, now: int)
    ensures forall s: Sequence :: Stale(s, timeout, now) <==> !s.ready && now - s.updated > timeout
  {
  }

  function Swept(seqs: map<Key, Sequence>, timeout: int, now: int): map<Key, Sequence> {
    map k | k in seqs && !Stale(seqs[k], timeout, now) :: seqs[k]
  }

  /** The message a completed sequence stands for. */
  function Reassembled(s: Sequence, key: Key): Message {
    MessageFor(s, key).(body := Concat(s.bodies))
  }

  class Reassembler {
    const timeout: int
    const maxSegments: nat
    var seqs: map<Key, Sequence>

    constructor (timeout: int, maxSegments: int)
      ensures seqs == map[]
      ensures this.timeout == (if timeout <= 0 then 5_000_000_000 else timeout)
      ensures this.maxSegments == (if maxSegments <= 0 then 4096 else maxSegments)
    {
      this.timeout := if timeout <= 0 then DEFAULT_TIMEOUT else timeout;
      this.maxSegments := if maxSegments <= 0 then DEFAULT_MAX_SEGMENTS else maxSegments;
      seqs := map[];
    }

    method Add(stream: StreamId, m: Message, now: int) returns (r: AddResult)
      modifies this`seqs
      ensures var key := KeyOf(stream, m); var step := AddStep(Lookup(old(seqs), key), maxSegments, m, now);
              seqs == Put(old(seqs), key, step.0) && r == step.1
    {
      var key := KeyOf(stream, m);
      var isSeg := MoreSegments(m.control);
      if key !in seqs {
        if !isSeg {
          seqs := seqs[key := Buffer(m.kind, m.timestamp, m.control, m.readSize, [m.body], true, now)];
          return Accepted(true);
        }
        if m.readSize != 0 {
          return Rejected(OutOfOrderSegment);
        }
        seqs := seqs[key := Buffer(m.kind, m.timestamp, WithoutMore(m.control), 0, [m.body], false, now)];
        return Accepted(false);
      }
      var s: Sequence := seqs[key];
      if !HeaderMatches(s, m) {
        seqs := seqs - {key};
        return Rejected(HeaderMismatch);
      }
      if s.ready {
        if !isSeg && s.bodies[|s.bodies| - 1] == m.body && m.readSize == s.finalReadSize {
          return Accepted(true);
        }
        return Rejected(SequenceComplete);
      }
      var next := |s.bodies|;
      if isSeg {
        var idx := m.readSize;
        if idx == next - 1 {
          if s.bodies[idx] == m.body {
            return Accepted(false);
          }
          seqs := seqs - {key};
          return Rejected(DuplicateSegment);
        } else if idx != next {
          seqs := seqs - {key};
          return Rejected(OutOfOrderSegment);
        }
      }
      if next + 1 > maxSegments {
        seqs := seqs - {key};
        return Rejected(TooManySegments);
      }
      s := s.(bodies := s.bodies + [m.body], updated := now);
      if !isSeg {
        s := s.(finalReadSize := m.readSize, ready := true);
        seqs := seqs[key := s];
        return Accepted(true);
      }
      seqs := seqs[key := s];
      return Accepted(false);
    }

    method Finish(key: Key) returns (r: Result<Message, FinishError>)
      modifies this`seqs
      ensures r == if key !in old(seqs) then Err(UnknownSequence)
                   else if !old(seqs)[key].ready then Err(Incomplete)
                   else Ok(Reassembled(old(seqs)[key], key))
      ensures seqs == if r.Ok? then old(seqs) - {key} else old(seqs)
    {
      if key !in seqs {
        return Err(UnknownSequence);
      }
      var s := seqs[key];
      if !s.ready {
        return Err(Incomplete);
      }
      var out := MessageFor(s, key).(body := Concat(s.bodies));
      seqs := seqs - {key};
      return Ok(out);
    }

    method FinishProtected(crc: E2E.Checksum, stream: StreamId, key: Key) returns (r: Result<Message, FinishError>)
      modifies this`seqs
      ensures r == if key !in old(seqs) then Err(UnknownSequence)
                   else if !old(seqs)[key].ready then Err(Incomplete)
                   else FinishedProtected(crc, stream, old(seqs)[key], key)
      ensures seqs == if key in old(seqs) && old(seqs)[key].ready then old(seqs) - {key} else old(seqs)
    {
      if key !in seqs {
        return Err(UnknownSequence);
      }
      var s := seqs[key];
      if !s.ready {
        return Err(Incomplete);
      }
      seqs := seqs - {key};
      var v := E2E.VerifyFragmented(crc, stream, MessageFor(s, key), s.bodies);
      if v.Err? {
        return Err(SafePoint(v.error));
      }
      return Ok(v.value);
    }

    /** Removes exactly the incomplete sequences older than the timeout, and
        reports each of them once. */
    method Sweep(now: int) returns (purged: seq<Key>)
      modifies this`seqs
      ensures forall k :: k in purged <==>
                k in old(seqs) && !old(seqs)[k].ready && now - old(seqs)[k].updated > timeout
      ensures forall k :: k in seqs <==> k in old(seqs) && k !in purged
      ensures forall k :: k in seqs ==> seqs[k] == old(seqs)[k]
      ensures seqs == Swept(old(seqs), timeout, now)
      ensures forall i, j :: 0 <= i < j < |purged| ==> purged[i] != purged[j]
    {
      hide Stale;
      StaleMeans(timeout, now);
      purged := [];
      var todo := seqs.Keys;
      while todo != {}
        invariant todo <= old(seqs).Keys
        invariant forall k :: k in purged <==> k in old(seqs) && k !in todo && Stale(old(seqs)[k], timeout, now)
        invariant forall i, j :: 0 <= i < j < |purged| ==> purged[i] != purged[j]
        invariant seqs == map k | k in old(seqs) && k !in purged :: old(seqs)[k]
        decreases |todo|
      {
        var key :| key in todo;
        todo := todo - {key};
        if Stale(seqs[key], timeout, now) {
          seqs := seqs - {key};
          purged := purged + [key];
        }
      }
    }
  }

  function FinishedProtected(crc: E2E.Checksum, stream: StreamId, s: Sequence, key: Key)
    : Result<Message, FinishError>
  {
    var v := E2E.VerifyFragmented(crc, stream, MessageFor(s, key), s.bodies);
    if v.Err? then Err(SafePoint(v.error)) else Ok(v.value)
  }
}
